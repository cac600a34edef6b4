/**
 * STN-botv2/services/google_forms_service.py: the App Script reply turned into
 * the unified submission list the stores synchronise from, the per-form
 * collection keyed by Google id, form id validation, the form URL, the
 * connection test and the synchronisation summary. The HTTP call is a reply
 * value (or a `fetch` function from form id to reply).
 */
module GoogleForms {
  import opened Wrappers
  import opened Text
  import opened Seqs
  import SettingsV2

  /** A raw `timestamp`: absent or empty, an ISO date-time (as seconds), or text `fromisoformat` rejects. */
  datatype Stamp = NoStamp | Iso(t: int) | Malformed

  datatype Source = Detailed | EmailOnly

  /** One entry of the App Script `people` list ("" for a missing key). */
  datatype PersonEntry = PersonEntry(email: string, firstName: string, lastName: string, timestamp: Stamp)

  /** The App Script JSON reply, `None` for a key it does not carry; `Unreachable` when
      the request raises or the body is not JSON. */
  datatype Reply = Reply(error: Option<string>, emails: Option<seq<string>>, people: Option<seq<PersonEntry>>)
                 | Unreachable

  /** One entry of the unified response list. */
  datatype Submission = Submission(email: string, firstName: string, lastName: string, fullName: string,
                                   timestamp: Stamp, source: Source)

  /** `email.lower().strip()`. */
  function Normalize(email: string): string {
    Strip(Lower(email))
  }

  /** The unified entry for one detailed person. */
  function FromPerson(p: PersonEntry): Submission {
    Submission(Normalize(p.email), Strip(p.firstName), Strip(p.lastName), Strip(p.firstName + " " + p.lastName),
               p.timestamp, Detailed)
  }

  /** The unified entry for an email known only from the `emails` list. */
  function EmailOnlyEntry(email: string): Submission {
    Submission(Normalize(email), "", "", "", NoStamp, EmailOnly)
  }

  predicate HasEmail(p: PersonEntry) {
    p.email != []
  }

  /** The first loop: detailed people with an email, in input order. */
  function DetailedPart(people: seq<PersonEntry>): seq<Submission> {
    MapIf(people, HasEmail, FromPerson)
  }

  /** The second loop: an email-only entry for each email whose normalised form is not in `seen`. */
  function EmailOnlyPart(emails: seq<string>, seen: set<string>): seq<Submission> {
    MapIf(emails, (e: string) => Normalize(e) !in seen, EmailOnlyEntry)
  }

  function EmailsOf(subs: seq<Submission>): set<string> {
    set i | 0 <= i < |subs| :: subs[i].email
  }

  /** The App Script's answer to a request without a form id. */
  const MissingFormId: string := "missing formId"

  /** The exemption test for App Script errors as written: the needle keeps an
      upper-case letter while the message is lower-cased. */
  predicate ErrorExemptAsWritten(msg: string) {
    Contains(Lower(msg), MissingFormId)
  }

  /** The exemption test as intended: the lower-cased message contains the lower-cased needle. */
  predicate ErrorExempt(msg: string) {
    Contains(Lower(msg), "missing formid")
  }

  /** The as-written test never exempts anything, not even the message it was meant for. */
  lemma AsWrittenNeverExempts(msg: string)
    ensures !ErrorExemptAsWritten(msg)
    ensures !ErrorExemptAsWritten(MissingFormId)
  {
    assert MissingFormId[12] == 'I';
    LowerSpec(msg);
    LowerSpec(MissingFormId);
    LoweredNeverContainsUpper(Lower(msg), MissingFormId, 12);
    LoweredNeverContainsUpper(Lower(MissingFormId), MissingFormId, 12);
  }

  /** The intended test exempts the App Script's own message. */
  lemma ErrorExemptExample(msg: string)
    requires msg == "missing formId"
    ensures ErrorExempt(msg)
  {
    LowerSpec(msg);
    assert Lower(msg) == "missing formid";
    ContainsSelf("missing formid");
  }

  /** The intended test ignores letter case. */
  lemma ErrorExemptCaseInsensitive(msg: string)
    ensures ErrorExempt(Lower(msg)) == ErrorExempt(msg)
  {
    LowerSpec(msg);
    LowerOfLowered(Lower(msg));
  }

  /** What `get_form_responses` returns for a reply, given the test that lets an App Script
      error through. */
  function UnifyWith(reply: Reply, exempt: string -> bool): seq<Submission> {
    if reply.Unreachable? then []
    else if reply.error.Some? && !exempt(reply.error.value) then []
    else
      var detailed := DetailedPart(reply.people.GetOr([]));
      detailed + EmailOnlyPart(reply.emails.GetOr([]), EmailsOf(detailed))
  }

  /** What `get_form_responses` returns, with the exemption test as written. */
  function Unify(reply: Reply): seq<Submission> {
    UnifyWith(reply, ErrorExemptAsWritten)
  }

  /** What `get_form_responses` would return with the intended exemption test. */
  function UnifyIntended(reply: Reply): seq<Submission> {
    UnifyWith(reply, ErrorExempt)
  }

  /** `get_form_responses`: the unified list built by the two loops. */
  method GetFormResponses(reply: Reply) returns (unified: seq<Submission>)
    ensures unified == Unify(reply)
    ensures reply.Reply? && reply.error.Some? ==> unified == []
    ensures reply.Reply? && reply.error.None? ==> unified == UnifyIntended(reply)
  {
    if reply.Unreachable? || (reply.error.Some? && !ErrorExemptAsWritten(reply.error.value)) {
      UnifyAsWritten(reply);
      return [];
    }
    UnifyAsWritten(reply);
    var detailed := CollectDetailed(reply.people.GetOr([]));
    var emailOnly := CollectEmailOnly(reply.emails.GetOr([]), EmailsOf(detailed));
    unified := detailed + emailOnly;
  }

  /** As written, every App Script error empties the list, the "missing formId" answer
      included; without an error the as-written and the intended lists agree. */
  lemma UnifyAsWritten(reply: Reply)
    ensures reply.Reply? && reply.error.Some? ==> Unify(reply) == []
    ensures reply.Reply? && reply.error.None? ==> Unify(reply) == UnifyIntended(reply)
    ensures reply.Unreachable? ==> Unify(reply) == [] && UnifyIntended(reply) == []
  {
    if reply.Reply? && reply.error.Some? {
      AsWrittenNeverExempts(reply.error.value);
    }
  }

  /** An error answer the intended test lets through (the App Script's "missing formId",
      by ErrorExemptExample) carrying one email: the code as written returns no entry, the
      intended test returns that email. */
  lemma ExemptAnswerDropped(msg: string, email: string)
    requires ErrorExempt(msg)
    ensures Unify(Reply(Some(msg), Some([email]), None)) == []
    ensures UnifyIntended(Reply(Some(msg), Some([email]), None)) == [EmailOnlyEntry(email)]
  {
    var reply := Reply(Some(msg), Some([email]), None);
    UnifyAsWritten(reply);
    assert DetailedPart([]) == [];
    assert EmailsOf([]) == {};
    assert [email][..0] == [];
  }

  /** The loop over `people`. */
  method CollectDetailed(people: seq<PersonEntry>) returns (unified: seq<Submission>)
    ensures unified == DetailedPart(people)
  {
    unified := [];
    var i := 0;
    while i < |people|
      invariant 0 <= i <= |people|
      invariant unified == DetailedPart(people[..i])
    {
      assert people[..i + 1][..i] == people[..i];
      if people[i].email != [] {
        unified := unified + [FromPerson(people[i])];
      }
      i := i + 1;
    }
    assert people[..|people|] == people;
  }

  /** The loop over `emails`, against the set of detailed emails. */
  method CollectEmailOnly(emails: seq<string>, detailedEmails: set<string>) returns (added: seq<Submission>)
    ensures added == EmailOnlyPart(emails, detailedEmails)
  {
    added := [];
    var j := 0;
    while j < |emails|
      invariant 0 <= j <= |emails|
      invariant added == EmailOnlyPart(emails[..j], detailedEmails)
    {
      assert emails[..j + 1][..j] == emails[..j];
      assert emails[..j + 1][j] == emails[j];
      var normalized := Normalize(emails[j]);
      if normalized !in detailedEmails {
        added := added + [EmailOnlyEntry(emails[j])];
      }
      j := j + 1;
    }
    assert emails[..|emails|] == emails;
  }

  /** Detailed entries are marked detailed and carry a normalised email. */
  lemma DetailedPartShape(people: seq<PersonEntry>)
    ensures forall i :: 0 <= i < |DetailedPart(people)| ==>
      DetailedPart(people)[i].source == Detailed && Normalize(DetailedPart(people)[i].email) == DetailedPart(people)[i].email
  {
    forall p | HasEmail(p) ensures Normalize(FromPerson(p).email) == FromPerson(p).email {
      StripLowerIdempotent(p.email);
    }
    MapIfAll(people, HasEmail, FromPerson, (x: Submission) => x.source == Detailed && Normalize(x.email) == x.email);
  }

  /** Email-only entries carry a normalised email that was not in `seen`, and empty names. */
  lemma EmailOnlyPartShape(emails: seq<string>, seen: set<string>)
    ensures forall i :: 0 <= i < |EmailOnlyPart(emails, seen)| ==>
      var s := EmailOnlyPart(emails, seen)[i];
      s.source == EmailOnly && s.email !in seen && s.fullName == [] && s.timestamp == NoStamp && Normalize(s.email) == s.email
  {
    forall e | Normalize(e) !in seen ensures Normalize(EmailOnlyEntry(e).email) == EmailOnlyEntry(e).email {
      StripLowerIdempotent(e);
    }
    MapIfAll(emails, (e: string) => Normalize(e) !in seen, EmailOnlyEntry,
             (x: Submission) => x.source == EmailOnly && x.email !in seen && x.fullName == [] && x.timestamp == NoStamp && Normalize(x.email) == x.email);
  }

  /** Whatever the exemption test, a rejected error reply gives the empty list and any
      other reply the detailed entries followed by the email-only ones. */
  lemma UnifyParts(reply: Reply, exempt: string -> bool)
    ensures reply.Reply? && reply.error.Some? && !exempt(reply.error.value) ==> UnifyWith(reply, exempt) == []
    ensures reply.Reply? && !(reply.error.Some? && !exempt(reply.error.value)) ==>
      var d := DetailedPart(reply.people.GetOr([]));
      UnifyWith(reply, exempt) == d + EmailOnlyPart(reply.emails.GetOr([]), EmailsOf(d))
  {
  }

  /** Detailed entries come first: nothing after an email-only entry is detailed. */
  lemma UnifyDetailedFirst(reply: Reply, exempt: string -> bool)
    ensures forall i, j :: 0 <= i < j < |UnifyWith(reply, exempt)| && UnifyWith(reply, exempt)[i].source == EmailOnly ==>
      UnifyWith(reply, exempt)[j].source == EmailOnly
  {
    if reply.Reply? && !(reply.error.Some? && !exempt(reply.error.value)) {
      var d := DetailedPart(reply.people.GetOr([]));
      var e := EmailOnlyPart(reply.emails.GetOr([]), EmailsOf(d));
      DetailedPartShape(reply.people.GetOr([]));
      EmailOnlyPartShape(reply.emails.GetOr([]), EmailsOf(d));
      assert UnifyWith(reply, exempt) == d + e;
    }
  }

  /** No email-only entry repeats the email of a detailed entry. */
  lemma UnifyEmailOnlyIsNew(reply: Reply, exempt: string -> bool)
    ensures var u := UnifyWith(reply, exempt);
      forall i, j :: 0 <= i < |u| && 0 <= j < |u| && u[i].source == Detailed && u[j].source == EmailOnly ==> u[i].email != u[j].email
  {
    if reply.Reply? && !(reply.error.Some? && !exempt(reply.error.value)) {
      var d := DetailedPart(reply.people.GetOr([]));
      var e := EmailOnlyPart(reply.emails.GetOr([]), EmailsOf(d));
      DetailedPartShape(reply.people.GetOr([]));
      EmailOnlyPartShape(reply.emails.GetOr([]), EmailsOf(d));
      assert UnifyWith(reply, exempt) == d + e;
      DetailedThenNew(d, e);
    }
  }

  lemma DetailedThenNew(d: seq<Submission>, e: seq<Submission>)
    requires forall i :: 0 <= i < |d| ==> d[i].source == Detailed
    requires forall i :: 0 <= i < |e| ==> e[i].source == EmailOnly && e[i].email !in EmailsOf(d)
    ensures forall i, j :: 0 <= i < |d + e| && 0 <= j < |d + e| && (d + e)[i].source == Detailed && (d + e)[j].source == EmailOnly ==>
      (d + e)[i].email != (d + e)[j].email
  {
    var u := d + e;
    forall i, j | 0 <= i < |u| && 0 <= j < |u| && u[i].source == Detailed && u[j].source == EmailOnly
      ensures u[i].email != u[j].email
    {
      assert i < |d| && j >= |d|;
      assert u[i].email in EmailsOf(d);
      assert u[j] == e[j - |d|];
    }
  }

  /** Every email in the unified list is lower-case and stripped. */
  lemma UnifyNormalized(reply: Reply, exempt: string -> bool)
    ensures forall i :: 0 <= i < |UnifyWith(reply, exempt)| ==> Normalize(UnifyWith(reply, exempt)[i].email) == UnifyWith(reply, exempt)[i].email
  {
    if reply.Reply? && !(reply.error.Some? && !exempt(reply.error.value)) {
      var d := DetailedPart(reply.people.GetOr([]));
      var e := EmailOnlyPart(reply.emails.GetOr([]), EmailsOf(d));
      DetailedPartShape(reply.people.GetOr([]));
      EmailOnlyPartShape(reply.emails.GetOr([]), EmailsOf(d));
      assert UnifyWith(reply, exempt) == d + e;
    }
  }

  // ----- collection keyed by Google id -----

  /** An insertion-ordered dict with string keys. */
  type Dict<V> = seq<(string, V)>

  type Collected = Dict<seq<Submission>>

  function Keys<V>(d: Dict<V>): seq<string> {
    seq(|d|, i requires 0 <= i < |d| => d[i].0)
  }

  /** `d[key] = value`: an existing key keeps its place, a new one goes last. */
  function Put<V>(d: Dict<V>, key: string, value: V): Dict<V> {
    var k := FirstIndex(Keys(d), (x: string) => x == key);
    if k < |d| then d[k := (key, value)] else d + [(key, value)]
  }

  /** The dict filled by `for id in ids: d[id] = value(id)`. */
  function CollectBy<V>(ids: seq<string>, value: string -> V): Dict<V> {
    if ids == [] then []
    else Put(CollectBy(ids[..|ids| - 1], value), ids[|ids| - 1], value(ids[|ids| - 1]))
  }

  /** The dict built by `get_multiple_forms_responses`. */
  function Collect(ids: seq<string>, fetch: string -> Reply): Collected {
    CollectBy(ids, (id: string) => Unify(fetch(id)))
  }

  /** `get_multiple_forms_responses`: one fetch per configured id, stored under that id. */
  method GetMultipleFormsResponses(ids: seq<string>, fetch: string -> Reply) returns (all: Collected)
    ensures all == Collect(ids, fetch)
  {
    all := [];
    var i := 0;
    while i < |ids|
      invariant 0 <= i <= |ids|
      invariant all == Collect(ids[..i], fetch)
    {
      assert ids[..i + 1][..i] == ids[..i];
      var responses := GetFormResponses(fetch(ids[i]));
      all := Put(all, ids[i], responses);
      i := i + 1;
    }
    assert ids[..|ids|] == ids;
  }

  /** Storing a key keeps the keys distinct, makes the key present with the new value,
      and leaves every other entry as it was. */
  lemma PutSpec<V>(d: Dict<V>, key: string, value: V)
    requires NoDuplicates(Keys(d))
    ensures NoDuplicates(Keys(Put(d, key, value)))
    ensures key in Keys(Put(d, key, value))
    ensures forall i :: 0 <= i < |Put(d, key, value)| && Put(d, key, value)[i].0 == key ==> Put(d, key, value)[i].1 == value
    ensures forall p :: p in d && p.0 != key ==> p in Put(d, key, value)
    ensures forall p :: p in Put(d, key, value) && p.0 != key ==> p in d
  {
    var r := Put(d, key, value);
    var k := FirstIndex(Keys(d), (x: string) => x == key);
    if k < |d| {
      assert Keys(r) == Keys(d);
      assert r[k].0 == key && Keys(r)[k] == key;
      forall i | 0 <= i < |r| && r[i].0 == key ensures r[i].1 == value {
        assert Keys(r)[i] == Keys(r)[k];
      }
      forall p | p in d && p.0 != key ensures p in r {
        var j :| 0 <= j < |d| && d[j] == p;
        assert r[j] == p;
      }
    } else {
      assert key !in Keys(d);
      assert Keys(r) == Keys(d) + [key];
      AppendAbsentKeepsDistinct(Keys(d), key);
      assert Keys(r)[|d|] == key;
      forall i | 0 <= i < |r| && r[i].0 == key ensures r[i].1 == value {
        assert Keys(r)[i] == Keys(r)[|d|];
      }
    }
  }

  /** The filled dict has one entry per distinct id, holding that id's value. */
  lemma {:induction false} CollectBySpec<V>(ids: seq<string>, value: string -> V)
    ensures NoDuplicates(Keys(CollectBy(ids, value)))
    ensures forall k :: k in Keys(CollectBy(ids, value)) <==> k in ids
    ensures forall p :: p in CollectBy(ids, value) ==> p.1 == value(p.0)
  {
    if ids != [] {
      var init := ids[..|ids| - 1];
      var last := ids[|ids| - 1];
      var c := CollectBy(init, value);
      CollectBySpec(init, value);
      PutSpec(c, last, value(last));
      var r := CollectBy(ids, value);
      assert ids == init + [last];
      forall k ensures k in Keys(r) <==> k in ids {
        if k != last {
          if k in Keys(r) {
            var i :| 0 <= i < |r| && Keys(r)[i] == k;
            assert r[i] in r;
            var j :| 0 <= j < |c| && c[j] == r[i];
            assert Keys(c)[j] == k;
          }
          if k in init {
            var j :| 0 <= j < |c| && Keys(c)[j] == k;
            assert c[j] in c;
            var i :| 0 <= i < |r| && r[i] == c[j];
            assert Keys(r)[i] == k;
          }
        }
      }
      forall p | p in r ensures p.1 == value(p.0) {
        if p.0 != last {
          assert p in c;
        }
      }
    }
  }

  /** The collected dict has one entry per distinct configured id, holding that id's
      unified responses. */
  lemma CollectSpec(ids: seq<string>, fetch: string -> Reply)
    ensures NoDuplicates(Keys(Collect(ids, fetch)))
    ensures forall k :: k in Keys(Collect(ids, fetch)) <==> k in ids
    ensures forall p :: p in Collect(ids, fetch) ==> p.1 == Unify(fetch(p.0))
  {
    CollectBySpec(ids, (id: string) => Unify(fetch(id)));
  }

  // ----- validation and URL -----

  predicate IdChar(c: char) {
    'a' <= c <= 'z' || 'A' <= c <= 'Z' || '0' <= c <= '9' || c == '-' || c == '_'
  }

  /** `validate_form_id`. */
  predicate ValidateFormId(id: string) {
    id != [] && |id| >= 10 && forall i :: 0 <= i < |id| ==> IdChar(id[i])
  }

  /** `get_form_url`. */
  function GetFormUrl(id: string): string {
    if ValidateFormId(id) then
      var r := Format(SettingsV2.GoogleFormUrlTemplate, map["form_id" := id]);
      if r.Formatted? then r.text else []
    else []
  }

  /** The URL is the view address of the id exactly when the id is valid, and "" otherwise. */
  lemma GetFormUrlIff(id: string)
    ensures GetFormUrl(id) != [] <==> ValidateFormId(id)
    ensures ValidateFormId(id) ==> GetFormUrl(id) == "https://docs.google.com/forms/d/" + id + "/viewform"
  {
    SettingsV2.FormUrlTemplateFills(id);
  }

  // ----- connection test -----

  datatype ConnectionStatus =
    | FormReachable(responsesCount: nat)      // "success" with a test form id
    | ScriptReachable                          // "success": the expected 'missing formId' error
    | ScriptReturnedData(emails: nat, people: nat)  // "success" with data
    | UnexpectedReply                          // "warning"
    | ConnectionError                          // "error"

  /** `test_connection(test_form_id)`: `reply` is what the App Script answers. */
  method TestConnection(testFormId: string, reply: Reply) returns (status: ConnectionStatus)
    ensures testFormId != [] ==> status == FormReachable(|Unify(reply)|)
    ensures testFormId == [] ==> status == ClassifyBareReply(reply)
  {
    if testFormId != [] {
      var responses := GetFormResponses(reply);
      return FormReachable(|responses|);
    }
    return ClassifyBareReply(reply);
  }

  /** The answer to a request without a form id, given the test for the expected error. */
  function ClassifyWith(reply: Reply, exempt: string -> bool): ConnectionStatus {
    if reply.Unreachable? then ConnectionError
    else if reply.error.Some? && exempt(reply.error.value) then ScriptReachable
    else if reply.emails.Some? || reply.people.Some? then ScriptReturnedData(|reply.emails.GetOr([])|, |reply.people.GetOr([])|)
    else UnexpectedReply
  }

  /** The classification with the test as written. */
  function ClassifyBareReply(reply: Reply): ConnectionStatus {
    ClassifyWith(reply, ErrorExemptAsWritten)
  }

  /** The classification with the intended test. */
  function ClassifyIntended(reply: Reply): ConnectionStatus {
    ClassifyWith(reply, ErrorExempt)
  }

  /** As written, a test without a form id never reports the App Script as reachable: the
      "missing formId" answer is reported as data when it carries any, else as unexpected.
      Only an unreachable script is an error. With the intended test that answer counts as
      reachable. */
  lemma TestConnectionOutcomes(reply: Reply)
    ensures ClassifyBareReply(reply) != ScriptReachable
    ensures ClassifyBareReply(reply) == ConnectionError <==> reply.Unreachable?
    ensures reply.Reply? && reply.emails.None? && reply.people.None? ==> ClassifyBareReply(reply) == UnexpectedReply
    ensures reply.Reply? && (reply.emails.Some? || reply.people.Some?) ==>
      ClassifyBareReply(reply) == ScriptReturnedData(|reply.emails.GetOr([])|, |reply.people.GetOr([])|)
    ensures reply.Reply? && reply.error.Some? && reply.error.value == "missing formId" ==> ClassifyIntended(reply) == ScriptReachable
  {
    if reply.Reply? && reply.error.Some? {
      AsWrittenNeverExempts(reply.error.value);
      if reply.error.value == "missing formId" {
        ErrorExemptExample(reply.error.value);
      }
    }
  }

  // ----- summary -----

  datatype SyncSummary = SyncSummary(totalForms: nat, formsWithResponses: nat, totalResponses: nat,
                                     uniqueEmails: nat, successRate: real)

  function TotalResponses(d: Collected): nat {
    if d == [] then 0 else TotalResponses(d[..|d| - 1]) + |d[|d| - 1].1|
  }

  /** The non-empty emails of a list. */
  function ListEmails(subs: seq<Submission>): set<string> {
    if subs == [] then {}
    else ListEmails(subs[..|subs| - 1]) + (if subs[|subs| - 1].email != [] then {subs[|subs| - 1].email} else {})
  }

  function AllEmails(d: Collected): set<string> {
    if d == [] then {} else AllEmails(d[..|d| - 1]) + ListEmails(d[|d| - 1].1)
  }

  predicate HasResponses(entry: (string, seq<Submission>)) {
    |entry.1| > 0
  }

  /** `get_sync_summary`. */
  function GetSyncSummary(d: Collected): SyncSummary {
    var withResponses := Count(d, HasResponses);
    SyncSummary(|d|, withResponses, TotalResponses(d), |AllEmails(d)|, Percent(withResponses, |d|))
  }

  lemma {:induction false} ListEmailsBound(subs: seq<Submission>)
    ensures |ListEmails(subs)| <= |subs|
    ensures forall e :: e in ListEmails(subs) ==> e != []
  {
    if subs != [] {
      ListEmailsBound(subs[..|subs| - 1]);
    }
  }

  lemma {:induction false} AllEmailsBound(d: Collected)
    ensures |AllEmails(d)| <= TotalResponses(d)
  {
    if d != [] {
      AllEmailsBound(d[..|d| - 1]);
      ListEmailsBound(d[|d| - 1].1);
      var a, b := AllEmails(d[..|d| - 1]), ListEmails(d[|d| - 1].1);
      assert |a + b| <= |a| + |b| by {
        assert |a + b| + |a * b| == |a| + |b|;
      }
    }
  }

  /** Forms with responses never outnumber forms, distinct emails never outnumber
      responses, and the rate is a percentage that is 0 without forms. */
  lemma SyncSummaryBounds(d: Collected)
    ensures GetSyncSummary(d).formsWithResponses <= GetSyncSummary(d).totalForms
    ensures GetSyncSummary(d).uniqueEmails <= GetSyncSummary(d).totalResponses
    ensures 0.0 <= GetSyncSummary(d).successRate <= 100.0
    ensures d == [] ==> GetSyncSummary(d).successRate == 0.0
  {
    AllEmailsBound(d);
    PercentBounds(Count(d, HasResponses), |d|);
  }
}
