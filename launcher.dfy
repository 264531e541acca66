/**
 * The launcher page: the static table of defect actions, the list the search
 * box and the prefix filter leave, the Guide tab's tiles and what a click on a
 * tile does.
 */
module Launcher {
  import opened Text

  /** An entry of `ACTIONS` (`caption` is its `label`); an empty `href` stands for a missing (falsy) one. */
  datatype Action = Action(id: string, caption: string, image: string, blurb: string, href: string)

  const Actions: seq<Action> := [
    Action("crack", "Crack", "/icons/Crack.jpeg", "This is a crack.", "/items/create?code=DC-CK-01&name=Crack&severity=Red"),
    Action("flash", "Flash", "/icons/Flash.jpeg", "This is a flash.", "/items/create"),
    Action("pinhole", "Pin Hole", "/icons/PinHole.jpeg", "This is a pin hole.", "/items/create"),
    Action("damage", "Damage", "/icons/Damage.jpeg", "This is a damage.", "/items/create"),
    Action("sink", "Sink", "/icons/Sink.jpeg", "This is a sink.", "/items/create"),
    Action("scratch", "Scratch", "/icons/Scratch.jpeg", "This is a scratch.", "/items/create"),
    Action("coldshut", "Cold Shut", "/icons/ColdShut.jpeg", "This is a cold shut.", "/items/create"),
    Action("blister", "Blister", "/icons/Blister.jpeg", "This is a blister.", "/items/create")
  ]

  /**
   * The table holds eight actions under eight different ids (the React keys and
   * the `/guide/<id>` paths); only Crack opens the form pre-filled.
   */
  lemma ActionsTable()
    ensures |Actions| == 8
    ensures forall i, j :: 0 <= i < j < |Actions| ==> Actions[i].id != Actions[j].id
    ensures Actions[0].href == "/items/create?code=DC-CK-01&name=Crack&severity=Red"
    ensures forall i :: 1 <= i < |Actions| ==> Actions[i].href == "/items/create"
  {
  }

  /** The predicate passed to `ACTIONS.filter`: the id filter, then the label search. */
  predicate Kept(a: Action, filter: string, query: string): (b: bool)
    ensures b && filter != "all" ==> |filter| <= |a.id| && a.id[..|filter|] == filter
    ensures b && Trim(query) != "" ==> |query| <= |a.caption|
    ensures filter == "all" && Trim(query) == "" ==> b
  {
    (filter == "all" || StartsWith(a.id, filter))
    && (Trim(query) == "" || Contains(ToLower(a.caption), ToLower(query)))
  }

  /** `filtered`: the actions the filter and the query keep. */
  function Filtered(actions: seq<Action>, filter: string, query: string): (r: seq<Action>)
    ensures |r| <= |actions|
    ensures forall a :: a in r <==> a in actions && Kept(a, filter, query)
  {
    if actions == [] then []
    else (if Kept(actions[0], filter, query) then [actions[0]] else []) + Filtered(actions[1..], filter, query)
  }

  /** `r` is `s` with some entries left out, the rest in their order. */
  predicate IsSubsequence(r: seq<Action>, s: seq<Action>)
    decreases |s|
  {
    if r == [] then true
    else if s == [] then false
    else if r[0] == s[0] then IsSubsequence(r[1..], s[1..])
    else IsSubsequence(r, s[1..])
  }

  /** Any subsequence of `s` is one of `s` with one more entry in front. */
  lemma {:induction false} SubsequenceCons(r: seq<Action>, x: Action, s: seq<Action>)
    requires IsSubsequence(r, s)
    ensures IsSubsequence(r, [x] + s)
    decreases |s|, 1
  {
    assert ([x] + s)[1..] == s;
    if r != [] && r[0] == x {
      SubsequenceDrop(r, s);
    }
  }

  /** Dropping the first entry of a subsequence keeps it a subsequence. */
  lemma {:induction false} SubsequenceDrop(r: seq<Action>, s: seq<Action>)
    requires r != [] && IsSubsequence(r, s)
    ensures IsSubsequence(r[1..], s)
    decreases |s|, 0
  {
    assert [s[0]] + s[1..] == s;
    if r[0] != s[0] {
      SubsequenceDrop(r, s[1..]);
    }
    SubsequenceCons(r[1..], s[0], s[1..]);
  }

  /** The filtered list keeps the order of `ACTIONS`: it is a subsequence of the input. */
  lemma {:induction false} FilteredIsSubsequence(actions: seq<Action>, filter: string, query: string)
    ensures IsSubsequence(Filtered(actions, filter, query), actions)
  {
    if actions != [] {
      var rest := Filtered(actions[1..], filter, query);
      FilteredIsSubsequence(actions[1..], filter, query);
      assert [actions[0]] + actions[1..] == actions;
      if Kept(actions[0], filter, query) {
        assert Filtered(actions, filter, query) == [actions[0]] + rest;
        assert ([actions[0]] + rest)[1..] == rest;
      } else {
        assert Filtered(actions, filter, query) == rest;
        SubsequenceCons(rest, actions[0], actions[1..]);
      }
    }
  }

  /** Filtering a filtered list with the same filter and query gives it back. */
  lemma {:induction false} FilteredIdempotent(actions: seq<Action>, filter: string, query: string)
    ensures Filtered(Filtered(actions, filter, query), filter, query) == Filtered(actions, filter, query)
  {
    if actions != [] {
      var rest := Filtered(actions[1..], filter, query);
      FilteredIdempotent(actions[1..], filter, query);
      if Kept(actions[0], filter, query) {
        assert ([actions[0]] + rest)[1..] == rest;
      } else {
        assert [] + rest == rest;
      }
    }
  }

  /** A list whose every entry is kept comes through whole. */
  lemma {:induction false} FilteredAllKept(actions: seq<Action>, filter: string, query: string)
    requires forall a :: a in actions ==> Kept(a, filter, query)
    ensures Filtered(actions, filter, query) == actions
  {
    if actions != [] {
      FilteredAllKept(actions[1..], filter, query);
      assert [actions[0]] + actions[1..] == actions;
    }
  }

  /** A query of white space only is blank after `trim`. */
  lemma BlankQuery(query: string)
    requires AllSpace(query)
    ensures Trim(query) == ""
  {
    var a := TrimMargins(query);
  }

  /** With filter `"all"` and a blank query, all eight actions are listed, in order. */
  lemma AllWithBlankQuery(query: string)
    requires AllSpace(query)
    ensures Filtered(Actions, "all", query) == Actions
    ensures |Filtered(Actions, "all", query)| == 8
  {
    BlankQuery(query);
    FilteredAllKept(Actions, "all", query);
  }

  /** The two prefix options of the filter menu: `"s"` lists Sink and Scratch, `"d"` lists Damage. */
  lemma PrefixOptions(query: string)
    requires AllSpace(query)
    ensures forall a :: a in Filtered(Actions, "s", query) <==> a == Actions[4] || a == Actions[5]
    ensures forall a :: a in Filtered(Actions, "d", query) <==> a == Actions[3]
  {
    BlankQuery(query);
    SinkAndScratch();
    DamageOnly();
  }

  /** The ids of `ACTIONS` starting with `"s"` are those of Sink and Scratch. */
  lemma SinkAndScratch()
    ensures forall a :: a in Actions && StartsWith(a.id, "s") <==> a == Actions[4] || a == Actions[5]
  {
    forall a | a in Actions
      ensures StartsWith(a.id, "s") <==> a == Actions[4] || a == Actions[5]
    {
      var k :| 0 <= k < |Actions| && Actions[k] == a;
      Initial(k);
      OneLetterPrefix(a.id, 's');
    }
  }

  /** The only id of `ACTIONS` starting with `"d"` is Damage's. */
  lemma DamageOnly()
    ensures forall a :: a in Actions && StartsWith(a.id, "d") <==> a == Actions[3]
  {
    forall a | a in Actions
      ensures StartsWith(a.id, "d") <==> a == Actions[3]
    {
      var k :| 0 <= k < |Actions| && Actions[k] == a;
      Initial(k);
      OneLetterPrefix(a.id, 'd');
    }
  }

  /** Each id of `ACTIONS` is non-empty, and its first letter is `"cfpdsscb"[k]`. */
  lemma Initial(k: int)
    requires 0 <= k < |Actions|
    ensures |Actions[k].id| > 0 && Actions[k].id[0] == "cfpdsscb"[k]
  {
  }

  /** A one-letter prefix is the first letter. */
  lemma OneLetterPrefix(s: string, c: char)
    ensures StartsWith(s, [c]) <==> |s| > 0 && s[0] == c
  {
  }

  /** Any filter other than `"all"` keeps only actions whose id starts with it. */
  lemma FilterIsIdPrefix(actions: seq<Action>, filter: string, query: string)
    requires filter != "all"
    ensures forall a :: a in Filtered(actions, filter, query) ==> StartsWith(a.id, filter)
  {
  }

  /**
   * A non-blank query keeps an action exactly when its lower-cased caption
   * contains the lower-cased query, surrounding white space included.
   */
  lemma QueryMatchesLabel(actions: seq<Action>, query: string, a: Action)
    requires Trim(query) != ""
    ensures a in Filtered(actions, "all", query) <==> a in actions && Contains(ToLower(a.caption), ToLower(query))
  {
  }

  /** The Guide tab: the same actions, each pointing at its guide page. */
  function GuideTiles(actions: seq<Action>): (r: seq<Action>)
    ensures |r| == |actions|
    ensures forall k :: 0 <= k < |r| ==>
      (r[k].id == actions[k].id && r[k].caption == actions[k].caption
       && r[k].image == actions[k].image && r[k].blurb == actions[k].blurb)
    ensures forall k :: 0 <= k < |r| ==> StartsWith(r[k].href, "/guide/") && r[k].href[|"/guide/"|..] == r[k].id
  {
    if actions == [] then []
    else [actions[0].(href := "/guide/" + actions[0].id)] + GuideTiles(actions[1..])
  }

  /** What a click on a tile does: navigate to its `href`, or open the dialog without one. */
  datatype Click = Navigate(href: string) | OpenDialog(action: Action)

  /** `Tile`'s `handleClick` */
  function TileClick(a: Action): (c: Click)
    ensures c.Navigate? <==> a.href != ""
    ensures c.Navigate? ==> c.href == a.href
    ensures c.OpenDialog? ==> c.action == a
  {
    if a.href != "" then Navigate(a.href) else OpenDialog(a)
  }

  /** A string that starts with `p` is `p` followed by the rest. */
  lemma PrefixSplit(p: string, s: string)
    requires StartsWith(s, p)
    ensures s == p + s[|p|..]
  {
    assert s == s[..|p|] + s[|p|..];
  }

  /** Every tile of the Guide tab navigates to `/guide/<id>`; none opens the dialog. */
  lemma GuideTileNavigates(actions: seq<Action>, k: nat)
    requires k < |actions|
    ensures TileClick(GuideTiles(actions)[k]) == Navigate("/guide/" + actions[k].id)
  {
    var t := GuideTiles(actions)[k];
    PrefixSplit("/guide/", t.href);
  }

  /** Every tile of the main grid navigates; the dialog is never opened from `ACTIONS`. */
  lemma ActionsNavigate(a: Action)
    requires a in Actions
    ensures TileClick(a) == Navigate(a.href)
  {
  }
}
