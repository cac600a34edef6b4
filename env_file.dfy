/**
 * The hand-written `.env` loader found, line for line the same, in
 * STN-botv2/config/settings.py and STN-botv3/config.py: each line is stripped
 * and, when it is not blank, not a comment and holds an `=`, split at the first
 * `=` into a trimmed key and a trimmed, unquoted value written into the
 * process environment. A write the environment refuses raises, and the loader
 * then reports failure without reading further.
 */
module EnvFile {
  import opened Wrappers
  import opened Text

  /** The `.env` file as the loader sees it: absent, or its lines, with `readFault`
      when reading stops with an exception after those lines (a decoding error). */
  datatype DotEnv = Missing | Present(lines: seq<string>, readFault: bool)

  /** The characters removed by `.strip('"\'')`. */
  predicate IsQuote(c: char) {
    c == '"' || c == '\''
  }

  /** One line of the file: the (key, value) pair it assigns, if any. */
  function ParseLine(line: string): Option<(string, string)> {
    var s := Strip(line);
    var eq := Find(s, '=');
    if s != [] && s[0] != '#' && eq < |s| then
      Some((Strip(s[..eq]), Trim(Strip(s[eq + 1..]), IsQuote)))
    else
      None
  }

  /** A line is used exactly when, once stripped, it is not empty, is not a comment and holds an `=`. */
  lemma ParseLineAccepts(line: string)
    ensures ParseLine(line).Some? <==> NotBlank(line) && Strip(line)[0] != '#' && '=' in Strip(line)
  {
    var s := Strip(line);
    assert Find(s, '=') < |s| <==> '=' in s;
  }

  /** The line is split at its first `=`, so the key holds no `=`; the key comes out trimmed. */
  lemma ParseLineKey(line: string)
    ensures ParseLine(line).Some? ==> '=' !in ParseLine(line).value.0
    ensures ParseLine(line).Some? ==> ParseLine(line).value.0 == Strip(ParseLine(line).value.0)
  {
    var s := Strip(line);
    var eq := Find(s, '=');
    if s != [] && s[0] != '#' && eq < |s| {
      TrimKeepsAbsent(s[..eq], IsSpace, '=');
      TrimIdempotent(s[..eq], IsSpace);
    }
  }

  /** The value neither starts nor ends with a quote character. */
  lemma ParseLineValue(line: string)
    ensures ParseLine(line).Some? ==> var v := ParseLine(line).value.1; v == [] || (!IsQuote(v[0]) && !IsQuote(v[|v| - 1]))
  {
    var s := Strip(line);
    var eq := Find(s, '=');
    if s != [] && s[0] != '#' && eq < |s| {
      TrimEnds(Strip(s[eq + 1..]), IsQuote);
    }
  }

  /** A taken line has an empty key exactly when its stripped text starts with `=`. */
  lemma ParseLineEmptyKey(line: string)
    ensures ParseLine(line).Some? ==> (ParseLine(line).value.0 == [] <==> Strip(line)[0] == '=')
  {
    var s := Strip(line);
    var eq := Find(s, '=');
    if s != [] && s[0] != '#' && eq < |s| {
      TrimEnds(line, IsSpace);
      if s[0] == '=' {
        assert eq == 0 && s[..eq] == [];
      } else {
        assert eq > 0 && s[..eq][0] == s[0] && !IsSpace(s[0]);
        BlankIffAllSpace(s[..eq]);
      }
    }
  }

  /** Whether `os.environ[key] = value` goes through: the platform refuses an empty
      name (setenv fails with EINVAL) and Python refuses a NUL character in the name
      or the value (ValueError). */
  predicate Settable(key: string, value: string) {
    key != [] && '\0' !in key && '\0' !in value
  }

  /** A line the loader takes whose assignment the environment refuses. */
  predicate Rejected(line: string) {
    ParseLine(line).Some? && !Settable(ParseLine(line).value.0, ParseLine(line).value.1)
  }

  /** The position of the first rejected line, or `|lines|` when there is none. */
  function FirstRejected(lines: seq<string>): (k: nat)
    ensures k <= |lines|
    ensures k < |lines| ==> Rejected(lines[k])
    ensures forall i :: 0 <= i < k ==> !Rejected(lines[i])
  {
    if lines == [] || Rejected(lines[0]) then 0 else 1 + FirstRejected(lines[1..])
  }

  /** A line that is not refused does not end the accepted prefix. */
  lemma FirstRejectedPast(lines: seq<string>, i: nat)
    requires i < |lines| && i <= FirstRejected(lines) && !Rejected(lines[i])
    ensures i < FirstRejected(lines)
  {
  }

  /** A line such as `=x` stops the loading before the lines after it are applied. */
  lemma EmptyKeyStopsLoading(env: map<string, string>)
    ensures ParseLine("=x") == Some(([], "x")) && Rejected("=x")
    ensures FirstRejected(["=x", "A=1"]) == 0
    ensures ApplyLines(env, ["=x", "A=1"][..FirstRejected(["=x", "A=1"])], ParseLine) == env
  {
    var s := "=x";
    assert Strip(s) == s by {
      assert !IsSpace(s[0]) && !IsSpace(s[1]);
    }
    assert Find(s, '=') == 0;
    assert s[..0] == [] && s[1..] == "x";
    assert Strip("x") == "x" by {
      assert !IsSpace("x"[0]);
    }
    assert Trim("x", IsQuote) == "x";
    assert ["=x", "A=1"][..0] == [];
  }

  /** The environment after `lines` have been read in order, each line turned into
      an assignment by `parse`. */
  function ApplyLines(env: map<string, string>, lines: seq<string>, parse: string -> Option<(string, string)>): map<string, string> {
    if lines == [] then env
    else
      var before := ApplyLines(env, lines[..|lines| - 1], parse);
      var assignment := parse(lines[|lines| - 1]);
      if assignment.Some? then before[assignment.value.0 := assignment.value.1] else before
  }

  /** When a key is assigned several times, the last line that assigns it wins. */
  lemma {:induction false} LastAssignmentWins(env: map<string, string>, lines: seq<string>, parse: string -> Option<(string, string)>,
                                              j: nat, key: string, value: string)
    requires j < |lines| && parse(lines[j]) == Some((key, value))
    requires forall k :: j < k < |lines| ==> parse(lines[k]).None? || parse(lines[k]).value.0 != key
    ensures key in ApplyLines(env, lines, parse) && ApplyLines(env, lines, parse)[key] == value
  {
    var last := |lines| - 1;
    var prefix := lines[..last];
    if j < last {
      assert prefix[j] == lines[j];
      forall k | j < k < |prefix| ensures parse(prefix[k]).None? || parse(prefix[k]).value.0 != key {
        assert prefix[k] == lines[k];
      }
      LastAssignmentWins(env, prefix, parse, j, key, value);
    }
  }

  /** A key that no line assigns keeps the value it had. */
  lemma {:induction false} UnassignedKeyKept(env: map<string, string>, lines: seq<string>, parse: string -> Option<(string, string)>, key: string)
    requires forall k :: 0 <= k < |lines| ==> parse(lines[k]).None? || parse(lines[k]).value.0 != key
    ensures key in ApplyLines(env, lines, parse) <==> key in env
    ensures key in env ==> ApplyLines(env, lines, parse)[key] == env[key]
  {
    if lines != [] {
      var prefix := lines[..|lines| - 1];
      forall k | 0 <= k < |prefix| ensures parse(prefix[k]).None? || parse(prefix[k]).value.0 != key {
        assert prefix[k] == lines[k];
      }
      UnassignedKeyKept(env, prefix, parse, key);
    }
  }

  /** The process environment (`os.environ`). */
  class Environment {
    var vars: map<string, string>

    constructor (initial: map<string, string>)
      ensures vars == initial
    {
      vars := initial;
    }

    /** `os.getenv(key, default)`. */
    function Get(key: string, default: string): string
      reads this
    {
      if key in vars then vars[key] else default
    }

    /** `load_env_manually()`: false when the file is missing, when the environment
        refuses a line's assignment, or when reading fails; every line taken before
        the refused one (or before the fault) has already been applied. */
    method LoadEnvManually(file: DotEnv) returns (loaded: bool)
      modifies this
      ensures loaded <==> file.Present? && !file.readFault && FirstRejected(file.lines) == |file.lines|
      ensures vars == if file.Missing? then old(vars) else ApplyLines(old(vars), file.lines[..FirstRejected(file.lines)], ParseLine)
    {
      if file.Missing? {
        return false;
      }
      var i := 0;
      while i < |file.lines|
        invariant 0 <= i <= |file.lines|
        invariant i <= FirstRejected(file.lines)
        invariant vars == ApplyLines(old(vars), file.lines[..i], ParseLine)
      {
        assert file.lines[..i + 1][..i] == file.lines[..i];
        var parsed := ParseLine(file.lines[i]);
        if parsed.Some? && !Settable(parsed.value.0, parsed.value.1) {
          assert FirstRejected(file.lines) == i by {
            assert Rejected(file.lines[i]);
          }
          return false;
        }
        assert i + 1 <= FirstRejected(file.lines) by {
          assert !Rejected(file.lines[i]);
          FirstRejectedPast(file.lines, i);
        }
        if parsed.Some? {
          vars := vars[parsed.value.0 := parsed.value.1];
        }
        i := i + 1;
      }
      assert file.lines[..i] == file.lines;
      assert FirstRejected(file.lines) == |file.lines|;
      loaded := !file.readFault;
    }
  }
}
