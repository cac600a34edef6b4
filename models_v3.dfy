/**
 * STN-botv3/models.py: the records of the v3 store and their computed
 * properties. Timestamps are integer seconds; the uuid defaults are the ids
 * the caller supplies.
 */
module ModelsV3 {
  import opened Wrappers

  datatype Person = Person(id: string, name: string, email: string, psid: string, createdAt: int)

  datatype Pole = Pole(id: string, name: string, description: string, color: string, isActive: bool, createdAt: int)

  datatype Group = Group(id: string, name: string, description: string, memberIds: seq<string>, color: string,
                         icon: string, isActive: bool, createdAt: int)

  datatype Form = Form(id: string, name: string, googleId: string, poleId: string, peopleIds: seq<string>, createdAt: int)

  datatype Response = Response(id: string, formId: string, personId: string, hasResponded: bool, lastReminder: Option<int>)

  /** The folder emoji of `Pole.display_name`. */
  const FolderIcon: char := '\U{1F4C1}'

  /** `Pole.display_name`: the folder emoji, a space and the name. */
  function PoleDisplayName(p: Pole): (s: string)
    ensures |s| == |p.name| + 2 && s[0] == FolderIcon && s[1] == ' '
  {
    [FolderIcon, ' '] + p.name
  }

  /** Two poles show the same label exactly when they have the same name. */
  lemma PoleDisplayNameInjective(a: Pole, b: Pole)
    ensures PoleDisplayName(a) == PoleDisplayName(b) <==> a.name == b.name
  {
    if PoleDisplayName(a) == PoleDisplayName(b) {
      assert a.name == PoleDisplayName(a)[2..];
      assert b.name == PoleDisplayName(b)[2..];
    }
  }

  /** `Group.display_name`: the icon, a space and the name. */
  function GroupDisplayName(g: Group): (s: string)
    ensures |s| == |g.icon| + 1 + |g.name|
    ensures s[..|g.icon|] == g.icon && s[|g.icon|] == ' ' && s[|g.icon| + 1..] == g.name
  {
    g.icon + " " + g.name
  }

  /** With the same icon, two groups show the same label exactly when they have the same name. */
  lemma GroupDisplayNameSameIcon(a: Group, b: Group)
    requires a.icon == b.icon
    ensures GroupDisplayName(a) == GroupDisplayName(b) <==> a.name == b.name
  {
  }

  /** `Group.member_count`. */
  function MemberCount(g: Group): nat {
    |g.memberIds|
  }

  /** The member count is the number of listed ids, repetitions included: it exceeds the
      number of distinct members when an id is listed twice. */
  lemma MemberCountCountsRepeats(g: Group)
    ensures MemberCount(g) >= |set i | 0 <= i < |g.memberIds| :: g.memberIds[i]|
    ensures (exists i, j :: 0 <= i < j < |g.memberIds| && g.memberIds[i] == g.memberIds[j]) ==>
      MemberCount(g) > |set i | 0 <= i < |g.memberIds| :: g.memberIds[i]|
  {
    DistinctIdsBound(g.memberIds);
  }

  /** At most |ids| distinct values, and fewer when a value repeats. */
  lemma {:induction false} DistinctIdsBound(ids: seq<string>)
    ensures |set i | 0 <= i < |ids| :: ids[i]| <= |ids|
    ensures (exists i, j :: 0 <= i < j < |ids| && ids[i] == ids[j]) ==> |set i | 0 <= i < |ids| :: ids[i]| < |ids|
  {
    if ids != [] {
      var init := ids[..|ids| - 1];
      var last := ids[|ids| - 1];
      DistinctIdsBound(init);
      var s := set i | 0 <= i < |ids| :: ids[i];
      var s' := set i | 0 <= i < |init| :: init[i];
      assert s == s' + {last} by {
        forall x | x in s ensures x in s' + {last} {
          var i :| 0 <= i < |ids| && ids[i] == x;
          if i < |init| { assert init[i] == x; }
        }
        forall x | x in s' ensures x in s {
          var i :| 0 <= i < |init| && init[i] == x;
          assert ids[i] == x;
        }
      }
      if exists i, j :: 0 <= i < j < |ids| && ids[i] == ids[j] {
        var i, j :| 0 <= i < j < |ids| && ids[i] == ids[j];
        if j == |ids| - 1 {
          assert init[i] == last;
          assert last in s';
          assert s == s';
        } else {
          assert init[i] == init[j];
        }
      }
    }
  }

  const ViewPrefix: string := "https://docs.google.com/forms/d/"
  const ViewSuffix: string := "/viewform"

  /** `Form.url`: the viewform address built from the Google id, also when it is empty. */
  function FormUrl(f: Form): (url: string)
    ensures |url| == |ViewPrefix| + |f.googleId| + |ViewSuffix|
    ensures url[..|ViewPrefix|] == ViewPrefix && url[|ViewPrefix| + |f.googleId|..] == ViewSuffix
  {
    ViewPrefix + f.googleId + ViewSuffix
  }

  /** The Google id is what sits between the prefix and the suffix of a form's URL. */
  function GoogleIdOfUrl(url: string): string
    requires |url| >= |ViewPrefix| + |ViewSuffix|
  {
    url[|ViewPrefix|..|url| - |ViewSuffix|]
  }

  /** The URL gives the Google id back, so two forms share a URL exactly when they share a
      Google id; an empty id still gives a (dead) non-empty link. */
  lemma FormUrlRoundTrip(f: Form, g: Form)
    ensures GoogleIdOfUrl(FormUrl(f)) == f.googleId
    ensures FormUrl(f) == FormUrl(g) <==> f.googleId == g.googleId
    ensures f.googleId == [] ==> FormUrl(f) == ViewPrefix + ViewSuffix
  {
    var u := FormUrl(f);
    assert u[|ViewPrefix|..|u| - |ViewSuffix|] == f.googleId;
    if FormUrl(f) == FormUrl(g) {
      assert GoogleIdOfUrl(FormUrl(g)) == g.googleId by {
        var v := FormUrl(g);
        assert v[|ViewPrefix|..|v| - |ViewSuffix|] == g.googleId;
      }
    }
  }
}
