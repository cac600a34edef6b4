/**
 * The Python string operations the dashboard relies on, over strings as
 * sequences of Unicode code points: str.strip() and str.strip(chars),
 * str.lower() (ASCII letters), `sub in s`, str.startswith, str.find and
 * str.replace.
 */
module Text {

  /** The characters for which Python's str.isspace() holds (U+0009-U+000D, U+001C-U+0020,
      U+0085, U+00A0, U+1680, U+2000-U+200A, U+2028, U+2029, U+202F, U+205F, U+3000);
      str.strip() with no argument removes these. */
  predicate IsSpace(c: char) {
    '\t' <= c <= '\r' || '\U{001C}' <= c <= ' ' || c == '\U{0085}' || c == '\U{00A0}' || c == '\U{1680}' ||
    '\U{2000}' <= c <= '\U{200A}' || c == '\U{2028}' || c == '\U{2029}' || c == '\U{202F}' || c == '\U{205F}' ||
    c == '\U{3000}'
  }

  /** Python's `s.strip(chars)`: leading, then trailing characters `drop` holds for are removed. */
  function Trim(s: string, drop: char -> bool): string
    decreases |s|
  {
    if s != [] && drop(s[0]) then Trim(s[1..], drop)
    else if s != [] && drop(s[|s| - 1]) then Trim(s[..|s| - 1], drop)
    else s
  }

  /** The stripped string neither starts nor ends with a character `drop` holds for. */
  lemma {:induction false} TrimEnds(s: string, drop: char -> bool)
    ensures var r := Trim(s, drop); r == [] || (!drop(r[0]) && !drop(r[|r| - 1]))
    decreases |s|
  {
    if s != [] && drop(s[0]) {
      TrimEnds(s[1..], drop);
    } else if s != [] && drop(s[|s| - 1]) {
      TrimEnds(s[..|s| - 1], drop);
    }
  }

  lemma TrimIdempotent(s: string, drop: char -> bool)
    ensures Trim(Trim(s, drop), drop) == Trim(s, drop)
  {
    TrimEnds(s, drop);
  }

  /** Trimming a lower-case string leaves it lower-case. */
  lemma {:induction false} TrimKeepsLowered(s: string, drop: char -> bool)
    requires IsLowered(s)
    ensures IsLowered(Trim(s, drop))
    decreases |s|
  {
    if s != [] && drop(s[0]) {
      assert forall i :: 0 <= i < |s| - 1 ==> s[1..][i] == s[i + 1];
      TrimKeepsLowered(s[1..], drop);
    } else if s != [] && drop(s[|s| - 1]) {
      assert forall i :: 0 <= i < |s| - 1 ==> s[..|s| - 1][i] == s[i];
      TrimKeepsLowered(s[..|s| - 1], drop);
    }
  }

  /** Trimming never brings in a character. */
  lemma {:induction false} TrimKeepsAbsent(s: string, drop: char -> bool, c: char)
    requires c !in s
    ensures c !in Trim(s, drop)
    decreases |s|
  {
    if s != [] && drop(s[0]) {
      assert c !in s[1..] by {
        assert forall i :: 0 <= i < |s| - 1 ==> s[1..][i] == s[i + 1];
      }
      TrimKeepsAbsent(s[1..], drop, c);
    } else if s != [] && drop(s[|s| - 1]) {
      assert c !in s[..|s| - 1] by {
        assert forall i :: 0 <= i < |s| - 1 ==> s[..|s| - 1][i] == s[i];
      }
      TrimKeepsAbsent(s[..|s| - 1], drop, c);
    }
  }

  /** Trimming leaves nothing exactly when every character is one `drop` holds for. */
  lemma {:induction false} TrimEmptyIff(s: string, drop: char -> bool)
    ensures Trim(s, drop) == [] <==> forall i :: 0 <= i < |s| ==> drop(s[i])
    decreases |s|
  {
    if s != [] && drop(s[0]) {
      TrimEmptyIff(s[1..], drop);
      assert forall i :: 1 <= i < |s| ==> s[i] == s[1..][i - 1];
    } else if s != [] && drop(s[|s| - 1]) {
      TrimEmptyIff(s[..|s| - 1], drop);
      assert forall i :: 0 <= i < |s| - 1 ==> s[i] == s[..|s| - 1][i];
    }
  }

  /** Python's `s.strip()`. */
  function Strip(s: string): string {
    Trim(s, IsSpace)
  }

  /** Python's truth value of `s.strip()`: the string holds a non-whitespace character. */
  predicate NotBlank(s: string) {
    Strip(s) != []
  }

  /** A string is blank (strips to nothing) exactly when every character is whitespace. */
  lemma BlankIffAllSpace(s: string)
    ensures !NotBlank(s) <==> forall i :: 0 <= i < |s| ==> IsSpace(s[i])
  {
    TrimEmptyIff(s, IsSpace);
  }

  /** Python's str.lower() on one character; only the ASCII capitals A-Z are folded. */
  function LowerChar(c: char): char {
    if 'A' <= c <= 'Z' then (c as int + 32) as char else c
  }

  predicate IsLowered(s: string) {
    forall i :: 0 <= i < |s| ==> !('A' <= s[i] <= 'Z')
  }

  /** Python's str.lower(). */
  function Lower(s: string): string {
    if s == [] then [] else [LowerChar(s[0])] + Lower(s[1..])
  }

  /** Lower-casing works character by character and leaves no capital. */
  lemma {:induction false} LowerSpec(s: string)
    ensures |Lower(s)| == |s|
    ensures forall i :: 0 <= i < |s| ==> Lower(s)[i] == LowerChar(s[i])
    ensures IsLowered(Lower(s))
  {
    if s != [] {
      LowerSpec(s[1..]);
    }
  }

  lemma LowerOfLowered(s: string)
    requires IsLowered(s)
    ensures Lower(s) == s
  {
  }

  lemma LowerConcat(a: string, b: string)
    ensures Lower(a + b) == Lower(a) + Lower(b)
  {
    LowerSpec(a + b);
    LowerSpec(a);
    LowerSpec(b);
    assert forall i :: 0 <= i < |a + b| ==> Lower(a + b)[i] == (Lower(a) + Lower(b))[i];
  }

  /** Lower-casing never turns a whitespace character into another one, nor a letter into whitespace. */
  lemma {:induction false} LowerKeepsSpaces(c: char)
    ensures IsSpace(LowerChar(c)) <==> IsSpace(c)
  {
    if 'A' <= c <= 'Z' {
      assert 'a' <= LowerChar(c) <= 'z';
    }
  }

  /** `sub in s`. */
  predicate Contains(s: string, sub: string)
    decreases |s|
  {
    if |s| < |sub| then false else s[..|sub|] == sub || Contains(s[1..], sub)
  }

  lemma {:induction false} ContainsAt(s: string, sub: string, i: nat)
    requires i + |sub| <= |s| && s[i..i + |sub|] == sub
    ensures Contains(s, sub)
    decreases i
  {
    if i > 0 {
      assert s[1..][i - 1..i - 1 + |sub|] == s[i..i + |sub|];
      ContainsAt(s[1..], sub, i - 1);
    }
  }

  /** Every character of a contained string occurs in the containing one. */
  lemma {:induction false} ContainsWitness(s: string, sub: string, k: nat)
    requires k < |sub|
    ensures Contains(s, sub) ==> sub[k] in s
    decreases |s|
  {
    if Contains(s, sub) {
      if s[..|sub|] == sub {
        assert s[k] == sub[k];
      } else {
        ContainsWitness(s[1..], sub, k);
        var j :| 0 <= j < |s[1..]| && s[1..][j] == sub[k];
        assert s[j + 1] == sub[k];
      }
    }
  }

  /** A lower-cased string never contains a needle with an upper-case letter. */
  lemma LoweredNeverContainsUpper(s: string, sub: string, k: nat)
    requires IsLowered(s) && k < |sub| && 'A' <= sub[k] <= 'Z'
    ensures !Contains(s, sub)
  {
    assert sub[k] !in s;
    ContainsWitness(s, sub, k);
  }

  /** Lower-casing then stripping is idempotent. */
  lemma StripLowerIdempotent(s: string)
    ensures Strip(Lower(Strip(Lower(s)))) == Strip(Lower(s))
  {
    LowerSpec(s);
    TrimKeepsLowered(Lower(s), IsSpace);
    LowerOfLowered(Strip(Lower(s)));
    TrimIdempotent(Lower(s), IsSpace);
  }

  /** Every string contains itself. */
  lemma ContainsSelf(s: string)
    ensures Contains(s, s)
  {
    assert s[0..|s|] == s;
    ContainsAt(s, s, 0);
  }

  predicate StartsWith(s: string, prefix: string) {
    |prefix| <= |s| && s[..|prefix|] == prefix
  }

  /** Python's `s.find(c)`, with |s| standing for "not found". */
  function Find(s: string, c: char): (r: nat)
    ensures r <= |s|
    ensures r < |s| ==> s[r] == c
    ensures forall i :: 0 <= i < r ==> s[i] != c
  {
    if s == [] then 0 else if s[0] == c then 0 else 1 + Find(s[1..], c)
  }

  /** Python's str.replace(pat, rep): every non-overlapping occurrence of `pat`, scanning left to right, is replaced. */
  function Replace(s: string, pat: string, rep: string): string
    decreases |s|
  {
    if pat == [] then
      if s == [] then rep else rep + [s[0]] + Replace(s[1..], pat, rep)
    else if |s| < |pat| then s
    else if s[..|pat|] == pat then rep + Replace(s[|pat|..], pat, rep)
    else [s[0]] + Replace(s[1..], pat, rep)
  }

  /** A string without an occurrence of the pattern is left alone. */
  lemma {:induction false} ReplaceAbsent(s: string, pat: string, rep: string)
    requires pat != [] && !Contains(s, pat)
    ensures Replace(s, pat, rep) == s
    decreases |s|
  {
    if |s| >= |pat| {
      ReplaceAbsent(s[1..], pat, rep);
    }
  }

  /** One character that does not start an occurrence is copied as is. */
  lemma ReplaceStep(s: string, pat: string, rep: string)
    requires pat != [] && s != [] && !StartsWith(s, pat)
    ensures Replace(s, pat, rep) == [s[0]] + Replace(s[1..], pat, rep)
  {
  }

  /** Literal text none of whose positions starts an occurrence is copied as is. */
  lemma {:induction false} ReplaceConcat(a: string, b: string, pat: string, rep: string)
    requires pat != []
    requires forall i :: 0 <= i < |a| ==> !StartsWith(a[i..] + b, pat)
    ensures Replace(a + b, pat, rep) == a + Replace(b, pat, rep)
    decreases |a|
  {
    if a != [] {
      var tail := a[1..];
      assert a[0..] == a;
      ReplaceStep(a + b, pat, rep);
      assert (a + b)[1..] == tail + b;
      forall i | 0 <= i < |tail| ensures !StartsWith(tail[i..] + b, pat) {
        assert tail[i..] == a[i + 1..];
      }
      ReplaceConcat(tail, b, pat, rep);
      calc {
        Replace(a + b, pat, rep);
        [a[0]] + Replace(tail + b, pat, rep);
        [a[0]] + (tail + Replace(b, pat, rep));
        { assert a == [a[0]] + tail; }
        a + Replace(b, pat, rep);
      }
    } else {
      assert a + b == b;
    }
  }

  lemma ReplaceFront(b: string, pat: string, rep: string)
    requires pat != []
    ensures Replace(pat + b, pat, rep) == rep + Replace(b, pat, rep)
  {
    assert (pat + b)[..|pat|] == pat;
    assert (pat + b)[|pat|..] == b;
  }

  /** What Python's `template.format(**vars)` does: the formatted text, a KeyError
      naming the missing key, another exception (ValueError or IndexError), or a
      placeholder on a known name whose field syntax this model does not interpret
      (an attribute, an index, the `!r` or `!a` conversion, a non-empty format spec). */
  datatype FormatResult = Formatted(text: string) | KeyMissing(key: string) | Raises | Unsupported

  function Prefixed(pre: string, r: FormatResult): FormatResult {
    if r.Formatted? then Formatted(pre + r.text) else r
  }

  /** A placeholder that names a positional argument: empty or all decimal digits. */
  predicate IsPositional(field: string) {
    forall i :: 0 <= i < |field| ==> '0' <= field[i] <= '9'
  }

  /** A character that starts an attribute, an index, a conversion or a format spec,
      and so ends the argument name of a placeholder. */
  predicate StartsFieldSyntax(c: char) {
    c == '.' || c == '[' || c == '!' || c == ':'
  }

  /** A character that starts the conversion or the format spec of a placeholder. */
  predicate StartsConversion(c: char) {
    c == '!' || c == ':'
  }

  /** A character a plain keyword placeholder name may hold. */
  predicate NameChar(c: char) {
    c != '{' && c != '}' && c != ']' && !StartsFieldSyntax(c)
  }

  /** The position of the first character of `s` that starts the field syntax, or `|s|`. */
  function NameEnd(s: string): (k: nat)
    ensures k <= |s|
    ensures k < |s| ==> StartsFieldSyntax(s[k])
    ensures forall i :: 0 <= i < k ==> !StartsFieldSyntax(s[i])
  {
    if s == [] || StartsFieldSyntax(s[0]) then 0 else 1 + NameEnd(s[1..])
  }

  /** The position of the first `!` or `:` of `s`, or `|s|`. */
  function ConversionStart(s: string): (k: nat)
    ensures k <= |s|
    ensures k < |s| ==> StartsConversion(s[k])
    ensures forall i :: 0 <= i < k ==> !StartsConversion(s[i])
  {
    if s == [] || StartsConversion(s[0]) then 0 else 1 + ConversionStart(s[1..])
  }

  /** The argument name of a placeholder: what precedes its first attribute, index,
      conversion or format spec. */
  function ArgName(field: string): (arg: string)
    ensures arg <= field
  {
    field[..NameEnd(field)]
  }

  /** The conversion part of a placeholder parses: after a `!` comes one character, then
      the end or a `:` (Python raises ValueError otherwise, before any lookup). */
  predicate ConversionParses(field: string) {
    var k := ConversionStart(field);
    k == |field| || field[k] == ':' || (k + 2 <= |field| && (k + 2 == |field| || field[k + 2] == ':'))
  }

  /** A placeholder on the name `arg` whose value is inserted as it is: no attribute or
      index, no conversion but `!s` (str of a string), and an empty format spec. */
  predicate Verbatim(field: string, arg: string) {
    field == arg || field == arg + "!s" || field == arg + ":" || field == arg + "!s:"
  }

  /** The value of one placeholder, or the fault it raises: a positional argument name
      raises IndexError since no positional argument is ever passed, a malformed
      conversion raises ValueError, an unknown argument name raises KeyError whatever
      follows it, and a known one gives its value. */
  function FieldValue(field: string, vars: map<string, string>): FormatResult {
    var arg := ArgName(field);
    if IsPositional(arg) || !ConversionParses(field) then Raises
    else if arg !in vars then KeyMissing(arg)
    else if Verbatim(field, arg) then Formatted(vars[arg])
    else Unsupported
  }

  /** Python's `template.format(**vars)`, scanned left to right so that the first
      fault met is the one raised: `{{` and `}}` stand for single braces, a lone `}`
      or an unclosed `{` raises ValueError, and a placeholder is replaced by its
      value. */
  function Format(t: string, vars: map<string, string>): FormatResult
    decreases |t|
  {
    if t == [] then Formatted([])
    else if t[0] == '{' then
      if |t| > 1 && t[1] == '{' then Prefixed("{", Format(t[2..], vars))
      else
        var close := Find(t[1..], '}');
        if close == |t| - 1 then Raises
        else
          var field := t[1..1 + close];
          var value := FieldValue(field, vars);
          if '{' in field then Raises
          else if value.Formatted? then Prefixed(value.text, Format(t[2 + close..], vars))
          else value
    else if t[0] == '}' then
      if |t| > 1 && t[1] == '}' then Prefixed("}", Format(t[2..], vars)) else Raises
    else Prefixed([t[0]], Format(t[1..], vars))
  }

  /** Literal text without braces is copied unchanged. */
  lemma {:induction false} FormatLiteral(lit: string, rest: string, vars: map<string, string>)
    requires forall i :: 0 <= i < |lit| ==> lit[i] != '{' && lit[i] != '}'
    ensures Format(lit + rest, vars) == Prefixed(lit, Format(rest, vars))
    decreases |lit|
  {
    if lit == [] {
      assert lit + rest == rest;
      match Format(rest, vars)
      case Formatted(s) => assert lit + s == s;
      case _ =>
    } else {
      assert (lit + rest)[1..] == lit[1..] + rest;
      FormatLiteral(lit[1..], rest, vars);
      assert lit == [lit[0]] + lit[1..];
    }
  }

  /** Searching past a plain name. */
  lemma {:induction false} SyntaxAfterName(key: string, suffix: string)
    requires forall i :: 0 <= i < |key| ==> NameChar(key[i])
    ensures NameEnd(key + suffix) == |key| + NameEnd(suffix)
    ensures ConversionStart(key + suffix) == |key| + ConversionStart(suffix)
    decreases |key|
  {
    if key != [] {
      assert (key + suffix)[0] == key[0];
      assert (key + suffix)[1..] == key[1..] + suffix;
      SyntaxAfterName(key[1..], suffix);
    } else {
      assert key + suffix == suffix;
    }
  }

  /** A placeholder without braces inside, followed by `rest`, gives its value followed
      by the rest formatted, or its fault. */
  lemma FormatPlaceholder(field: string, rest: string, vars: map<string, string>)
    requires forall i :: 0 <= i < |field| ==> field[i] != '{' && field[i] != '}'
    ensures var value := FieldValue(field, vars);
      Format("{" + field + "}" + rest, vars) == if value.Formatted? then Prefixed(value.text, Format(rest, vars)) else value
  {
    var t := "{" + field + "}" + rest;
    var value := FieldValue(field, vars);
    assert t[0] == '{' && t[1] != '{' by {
      assert |field| == 0 ==> t[1] == '}';
      assert |field| > 0 ==> t[1] == field[0];
    }
    assert t[1..] == field + "}" + rest;
    assert Find(t[1..], '}') == |field| by {
      assert (field + "}" + rest)[|field|] == '}';
      assert forall i :: 0 <= i < |field| ==> (field + "}" + rest)[i] == field[i];
    }
    assert t[1..1 + |field|] == field;
    assert t[2 + |field|..] == rest;
    assert '{' !in field;
    assert Format(t, vars) == if value.Formatted? then Prefixed(value.text, Format(rest, vars)) else value;
  }

  /** The argument name of `key + suffix` is `key` when the suffix is empty or starts the
      field syntax. */
  lemma ArgNameOf(key: string, suffix: string)
    requires forall i :: 0 <= i < |key| ==> NameChar(key[i])
    requires suffix == [] || StartsFieldSyntax(suffix[0])
    ensures ArgName(key + suffix) == key
  {
    SyntaxAfterName(key, suffix);
    assert (key + suffix)[..|key|] == key;
  }

  /** A known keyword placeholder with no field syntax, or only `!s` or an empty format
      spec, is replaced by its value. */
  lemma FormatVerbatimField(key: string, suffix: string, rest: string, vars: map<string, string>)
    requires key in vars && key != []
    requires forall i :: 0 <= i < |key| ==> NameChar(key[i])
    requires exists i :: 0 <= i < |key| && !('0' <= key[i] <= '9')
    requires suffix == "" || suffix == "!s" || suffix == ":" || suffix == "!s:"
    ensures Format("{" + (key + suffix) + "}" + rest, vars) == Prefixed(vars[key], Format(rest, vars))
  {
    ArgNameOf(key, suffix);
    SyntaxAfterName(key, suffix);
    assert FieldValue(key + suffix, vars) == Formatted(vars[key]);
    FormatPlaceholder(key + suffix, rest, vars);
  }

  /** A plain keyword placeholder is replaced by its value. */
  lemma FormatField(key: string, rest: string, vars: map<string, string>)
    requires key in vars && key != []
    requires forall i :: 0 <= i < |key| ==> NameChar(key[i])
    requires exists i :: 0 <= i < |key| && !('0' <= key[i] <= '9')
    ensures Format("{" + key + "}" + rest, vars) == Prefixed(vars[key], Format(rest, vars))
  {
    assert key + "" == key;
    FormatVerbatimField(key, "", rest, vars);
  }

  /** A placeholder on an unknown keyword raises KeyError for it, whatever attribute,
      index, conversion or format spec follows, unless an earlier fault was met. */
  lemma FormatUnknownField(key: string, suffix: string, rest: string, vars: map<string, string>)
    requires key !in vars && key != []
    requires forall i :: 0 <= i < |key| ==> NameChar(key[i])
    requires exists i :: 0 <= i < |key| && !('0' <= key[i] <= '9')
    requires forall i :: 0 <= i < |suffix| ==> suffix[i] != '{' && suffix[i] != '}'
    requires suffix == [] || StartsFieldSyntax(suffix[0])
    requires ConversionParses(key + suffix)
    ensures Format("{" + (key + suffix) + "}" + rest, vars) == KeyMissing(key)
  {
    ArgNameOf(key, suffix);
    assert FieldValue(key + suffix, vars) == KeyMissing(key);
    FormatPlaceholder(key + suffix, rest, vars);
  }

  /** Literal text in front of a part that formats to `text` is copied in front of it. */
  lemma FormatAfterLiteral(lit: string, t: string, text: string, vars: map<string, string>)
    requires forall i :: 0 <= i < |lit| ==> lit[i] != '{' && lit[i] != '}'
    requires Format(t, vars) == Formatted(text)
    ensures Format(lit + t, vars) == Formatted(lit + text)
  {
    FormatLiteral(lit, t, vars);
  }

  /** A keyword placeholder followed by brace-free literal text. */
  lemma FormatFieldThenLiteral(key: string, post: string, vars: map<string, string>)
    requires forall i :: 0 <= i < |post| ==> post[i] != '{' && post[i] != '}'
    requires key in vars && key != []
    requires forall i :: 0 <= i < |key| ==> NameChar(key[i])
    requires exists i :: 0 <= i < |key| && !('0' <= key[i] <= '9')
    ensures Format("{" + key + "}" + post, vars) == Formatted(vars[key] + post)
  {
    FormatAfterLiteral(post, [], [], vars);
    assert post + [] == post;
    FormatField(key, post, vars);
  }

  /** A template made of brace-free literal text around one keyword placeholder. */
  lemma FormatOneField(pre: string, key: string, post: string, vars: map<string, string>)
    requires forall i :: 0 <= i < |pre| ==> pre[i] != '{' && pre[i] != '}'
    requires forall i :: 0 <= i < |post| ==> post[i] != '{' && post[i] != '}'
    requires key in vars && key != []
    requires forall i :: 0 <= i < |key| ==> NameChar(key[i])
    requires exists i :: 0 <= i < |key| && !('0' <= key[i] <= '9')
    ensures Format(pre + ("{" + key + "}" + post), vars) == Formatted(pre + (vars[key] + post))
  {
    FormatFieldThenLiteral(key, post, vars);
    FormatAfterLiteral(pre, "{" + key + "}" + post, vars[key] + post, vars);
  }
}
