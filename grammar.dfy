/**
 * The spoken-command grammar of the item form: `fieldFromSpoken`, `cleanTail`,
 * the control words and the three command patterns of `handleSpeechChunk`.
 *
 * Each regular expression is written out as the first match JavaScript's
 * backtracking matcher returns. The patterns are anchored with `^` and `$`
 * (no `m` flag), so they match at index 0 or not at all. The command patterns
 * are only ever applied to `text.trim()`, which is why the matchers ask for
 * a trimmed string: on a trimmed string no greedy `\s*` or `\s+` can run into
 * the end of the input, and the first alternative that is followed by a
 * well-formed tail is the one the matcher reports.
 */
module Grammar {
  import opened Wrappers
  import opened Text
  import opened ItemForm

  // ---------- fieldFromSpoken ----------

  /** The word `fieldFromSpoken` looks for to recognise each field. */
  function Keyword(f: Field): string {
    match f
    case Name => "name"
    case Description => "description"
    case Notes => "note"
    case Inspector => "inspector"
    case InspectionDate => "date"
  }

  /** The order in which `fieldFromSpoken` tests the keywords. */
  function Rank(f: Field): nat {
    match f
    case Name => 0
    case Description => 1
    case Notes => 2
    case Inspector => 3
    case InspectionDate => 4
  }

  /** The lower-cased `word` holds the keyword of `f`. */
  predicate Mentions(word: string, f: Field) {
    Contains(ToLower(word), Keyword(f))
  }

  lemma MentionsNothing(word: string)
    ensures !Mentions(word, Name) && !Mentions(word, Description) && !Mentions(word, Notes)
      && !Mentions(word, Inspector) && !Mentions(word, InspectionDate)
      ==> forall g :: !Mentions(word, g)
  {
    if !Mentions(word, Name) && !Mentions(word, Description) && !Mentions(word, Notes)
      && !Mentions(word, Inspector) && !Mentions(word, InspectionDate)
    {
      forall g
        ensures !Mentions(word, g)
      {
      }
    }
  }

  /** The `inspection date` and `=== "date"` tests of `fieldFromSpoken` imply its `includes("date")`. */
  lemma InspectionDateMentionsDate(word: string)
    ensures Contains(ToLower(word), "inspection date") ==> Mentions(word, InspectionDate)
    ensures ToLower(word) == "date" ==> Mentions(word, InspectionDate)
  {
    var w := ToLower(word);
    if w == "date" {
      assert Contains(w, "date");
    }
    if Contains(w, "inspection date") {
      assert "inspection date" == "inspection " + "date";
      ContainsPart(w, "inspection ", "date");
    }
  }

  /**
   * `fieldFromSpoken`: the field whose keyword occurs in the lower-cased word,
   * the earliest in `Rank` order when several occur, and none when none does.
   * (The `inspection date` and `=== "date"` tests add nothing to `includes("date")`.)
   */
  function FieldFromSpoken(word: string): (r: Option<Field>)
    ensures r.Some? ==> Mentions(word, r.value)
    ensures r.Some? ==> forall g :: Rank(g) < Rank(r.value) ==> !Mentions(word, g)
    ensures r.None? <==> forall g :: !Mentions(word, g)
  {
    var w := ToLower(word);
    InspectionDateMentionsDate(word);
    MentionsNothing(word);
    if Mentions(word, Name) then Some(Name)
    else if Mentions(word, Description) then Some(Description)
    else if Mentions(word, Notes) then Some(Notes)
    else if Mentions(word, Inspector) then Some(Inspector)
    else if Contains(w, "inspection date") || w == "date" || Mentions(word, InspectionDate) then Some(InspectionDate)
    else None
  }

  /** A lower-case ASCII literal matched under `/i` is what `toLowerCase` makes of the text. */
  lemma CiAtLower(t: string, i: nat, lit: string)
    requires CiAt(t, i, lit)
    requires forall k :: 0 <= k < |lit| ==> lit[k] as int < 128
    ensures ToLower(t[i..i + |lit|]) == lit
  {
    var x := t[i..i + |lit|];
    forall k | 0 <= k < |lit|
      ensures ToLower(x)[k] == lit[k]
    {
      assert x[k] == t[i + k];
    }
  }

  // ---------- cleanTail ----------

  /** Length of the `(is|to|as|=|:)` that `cleanTail` strips, under `/i`, at index `i` (0: none). */
  function TailConnector(s: string, i: nat): (n: nat)
    requires i <= |s|
    ensures i + n <= |s|
  {
    if CiAt(s, i, "is") || CiAt(s, i, "to") || CiAt(s, i, "as") then 2
    else if CiAt(s, i, "=") || CiAt(s, i, ":") then 1
    else 0
  }

  lemma InfixOfSuffix(s: string, k: nat, r: string)
    requires k <= |s|
    requires exists a :: OccursAt(s[k..], r, a)
    ensures exists i :: OccursAt(s, r, i)
  {
    var a :| OccursAt(s[k..], r, a);
    assert s[k + a..k + a + |r|] == s[k..][a..a + |r|];
    assert OccursAt(s, r, k + a);
  }

  lemma TrimIsInfix(s: string)
    ensures exists a :: OccursAt(s, Trim(s), a)
  {
    var a := TrimMargins(s);
    assert OccursAt(s, Trim(s), a);
  }

  /** Where the value `cleanTail` keeps begins: after the white space, the connector and the white space again. */
  function CleanTailStart(s: string): (k: nat)
    ensures k <= |s|
  {
    var p := SpaceRun(s, 0);
    var n := TailConnector(s, p);
    if n == 0 then 0 else p + n + SpaceRun(s, p + n)
  }

  /**
   * `cleanTail`: drops one leading connector word with the white space around
   * it, then trims. The result is trimmed and is a piece of the input.
   */
  function CleanTail(s: string): (r: string)
    ensures IsTrimmed(r)
    ensures exists i :: OccursAt(s, r, i)
  {
    var k := CleanTailStart(s);
    TrimIsInfix(s[k..]);
    InfixOfSuffix(s, k, Trim(s[k..]));
    Trim(s[k..])
  }

  /** A value whose first word after the white space is not a connector is only trimmed. */
  lemma CleanTailPlainValue(x: string)
    requires TailConnector(x, SpaceRun(x, 0)) == 0
    ensures CleanTail(x) == Trim(x)
  {
    assert x[0..] == x;
  }

  /** A connector spelled in any case: `is`, `to`, `as`, `=` or `:`. */
  predicate IsTailConnector(c: string) {
    CiEquals(c, "is") || CiEquals(c, "to") || CiEquals(c, "as") || CiEquals(c, "=") || CiEquals(c, ":")
  }

  lemma TailConnectorOf(s: string, p: nat, c: string)
    requires IsTailConnector(c)
    requires p + |c| <= |s| && s[p..p + |c|] == c
    ensures TailConnector(s, p) == |c| && !IsSpace(s[p])
  {
    assert s[p] == c[0];
    if CiEquals(c, "is") {
      CiAtPiece(s, p, c, "is");
      assert FoldChar(s[p + 0]) == "is"[0];
    } else if CiEquals(c, "to") {
      CiAtPiece(s, p, c, "to");
      assert FoldChar(s[p + 0]) == "to"[0];
    } else if CiEquals(c, "as") {
      CiAtPiece(s, p, c, "as");
      assert FoldChar(s[p + 0]) == "as"[0];
    } else {
      assert FoldChar(s[p]) == '=' || FoldChar(s[p]) == ':' by {
        if CiEquals(c, "=") {
          assert FoldChar(c[0 + 0]) == "="[0];
        } else {
          assert FoldChar(c[0 + 0]) == ":"[0];
        }
      }
      CiAtDiffersAt(s, p, "is", 0);
      CiAtDiffersAt(s, p, "to", 0);
      CiAtDiffersAt(s, p, "as", 0);
      if CiEquals(c, "=") {
        CiAtPiece(s, p, c, "=");
      } else {
        CiAtPiece(s, p, c, ":");
      }
    }
  }

  /**
   * Exactly one leading connector goes, whatever its case and the white space around it,
   * and the rest is trimmed: `cleanTail(" To  is x ")` is `"is x"`.
   */
  lemma CleanTailDropsConnector(w1: string, c: string, w2: string, x: string)
    requires AllSpace(w1) && AllSpace(w2)
    requires IsTailConnector(c)
    requires x == [] || !IsSpace(x[0])
    ensures CleanTail(w1 + c + w2 + x) == Trim(x)
  {
    var s := w1 + c + w2 + x;
    var p, n, m := |w1|, |c|, |w2|;
    assert s[0..p] == w1 && s[p..p + n] == c && s[p + n..p + n + m] == w2 && s[p + n + m..] == x;
    if x != [] {
      assert s[p + n + m] == x[0];
    }
    ConnectorStart(s, p, c, m);
  }

  /** Where the kept value begins when white space, a connector and white space lead `s`. */
  lemma ConnectorStart(s: string, p: nat, c: string, m: nat)
    requires p + |c| + m <= |s| && AllSpace(s[0..p]) && s[p..p + |c|] == c && IsTailConnector(c)
    requires AllSpace(s[p + |c|..p + |c| + m])
    requires p + |c| + m == |s| || !IsSpace(s[p + |c| + m])
    ensures CleanTailStart(s) == p + |c| + m
  {
    var n := |c|;
    TailConnectorOf(s, p, c);
    SpaceRunOf(s, 0, p);
    SpaceRunOf(s, p + n, m);
  }

  // ---------- control words ----------

  datatype Control = StopWord | SaveWord | ExportWord | CancelWord

  /** `/^(stop|done|that'?s all|finish|end)$/i` */
  predicate IsStopPhrase(t: string) {
    CiEquals(t, "stop") || CiEquals(t, "done") || CiEquals(t, "that's all") || CiEquals(t, "thats all")
    || CiEquals(t, "finish") || CiEquals(t, "end")
  }

  /** The control phrase `handleSpeechChunk` tests first, when the whole of `t` is one. */
  function ControlWord(t: string): (r: Option<Control>)
    ensures r == Some(StopWord) <==> IsStopPhrase(t)
    ensures r == Some(SaveWord) <==> CiEquals(t, "save")
    ensures r == Some(ExportWord) <==> CiEquals(t, "export")
    ensures r == Some(CancelWord) <==> CiEquals(t, "cancel")
    ensures r.None? <==> !IsStopPhrase(t) && !CiEquals(t, "save") && !CiEquals(t, "export") && !CiEquals(t, "cancel")
    ensures r.Some? ==> 3 <= |t| <= 10
  {
    ControlPhrasesDiffer(t);
    if IsStopPhrase(t) then Some(StopWord)
    else if CiEquals(t, "save") then Some(SaveWord)
    else if CiEquals(t, "export") then Some(ExportWord)
    else if CiEquals(t, "cancel") then Some(CancelWord)
    else None
  }

  /** No text is two different control phrases: their first two letters tell them apart. */
  lemma ControlPhrasesDiffer(t: string)
    ensures CiEquals(t, "save") ==> !IsStopPhrase(t)
    ensures CiEquals(t, "export") ==> !IsStopPhrase(t) && !CiEquals(t, "save")
    ensures CiEquals(t, "cancel") ==> !IsStopPhrase(t) && !CiEquals(t, "save") && !CiEquals(t, "export")
  {
    if CiEquals(t, "save") {
      CiAtHead(t, 0, "save");
      CiAtDiffersAt(t, 0, "stop", 1);
      CiAtDiffersAt(t, 0, "done", 0);
    }
    if CiEquals(t, "export") {
      CiAtHead(t, 0, "export");
      CiAtDiffersAt(t, 0, "finish", 0);
    }
    if CiEquals(t, "cancel") {
      CiAtHead(t, 0, "cancel");
      CiAtDiffersAt(t, 0, "finish", 0);
      CiAtDiffersAt(t, 0, "export", 0);
    }
  }

  /** Two texts that differ only in the case of ASCII letters. */
  predicate SameUpToCase(t: string, u: string) {
    |t| == |u| && forall k :: 0 <= k < |t| ==> FoldChar(t[k]) == FoldChar(u[k])
  }

  /** The control words ignore letter case: `STOP`, `Stop` and `stop` do the same. */
  lemma {:induction false} ControlWordIgnoresCase(t: string, u: string)
    requires SameUpToCase(t, u)
    ensures ControlWord(t) == ControlWord(u)
  {
    forall lit: string | |lit| == |t|
      ensures CiEquals(t, lit) <==> CiEquals(u, lit)
    {
      assert forall k :: 0 <= k < |lit| ==> FoldChar(t[k]) == FoldChar(u[k]);
    }
  }

  // ---------- shared pieces of the command patterns ----------

  /** `(.+)$` from index `i`: the rest of the string, when it is non-empty and holds no line terminator. */
  function RestOfLine(t: string, i: nat): (r: Option<string>)
    requires i <= |t|
    ensures r.Some? <==> i < |t| && NoLineTerminator(t[i..])
    ensures r.Some? ==> r.value == t[i..]
  {
    if i < |t| && NoLineTerminator(t[i..]) then Some(t[i..]) else None
  }

  /** A capture of the command patterns: a non-empty tail of `t` on one line. */
  predicate IsTailCapture(t: string, v: string) {
    0 < |v| <= |t| && v == t[|t| - |v|..] && NoLineTerminator(v)
  }

  lemma RestOfLineIsTail(t: string, i: nat)
    requires i <= |t|
    ensures RestOfLine(t, i).Some? ==> IsTailCapture(t, RestOfLine(t, i).value)
  {
  }

  // ---------- focus: /^(enter|start|begin|focus|select|go to)\s+(?:text\s+for\s+)?(.+)$/i ----------

  const FocusVerbs: seq<string> := ["enter", "start", "begin", "focus", "select", "go to"]

  /** `text\s+for\s+` at index `q`: the index just after it. */
  function TextForEnd(t: string, q: nat): (r: Option<nat>)
    requires q <= |t|
    ensures r.Some? ==> q + 9 <= r.value <= |t|
  {
    if CiAt(t, q, "text") then
      var w1 := SpaceRun(t, q + 4);
      if w1 > 0 && CiAt(t, q + 4 + w1, "for") then
        var w2 := SpaceRun(t, q + 7 + w1);
        if w2 > 0 then Some(q + 7 + w1 + w2) else None
      else None
    else None
  }

  /**
   * `\s+(?:text\s+for\s+)?(.+)$` after a verb that ends at `a`. The optional
   * group is tried first; when `.+` fails after it, it fails without it too
   * (the shorter tail holds the same line terminator).
   */
  function FocusTarget(t: string, a: nat): (r: Option<string>)
    requires a <= |t|
    ensures r.Some? ==> IsTailCapture(t, r.value) && |r.value| < |t| - a
  {
    if SpaceRun(t, a) == 0 then None
    else
      var start := FocusTargetStart(t, a);
      RestOfLineIsTail(t, start);
      RestOfLine(t, start)
  }

  /** Where `(.+)` of the focus pattern starts: after the white space, and after `text for ` when a target follows it. */
  function FocusTargetStart(t: string, a: nat): (start: nat)
    requires a <= |t|
    ensures a <= start <= |t|
  {
    var q := a + SpaceRun(t, a);
    var tf := TextForEnd(t, q);
    if tf.Some? && tf.value < |t| then tf.value else q
  }

  /** The first verb of `verbs` that begins `t` and is followed by a well-formed target. */
  function FocusWith(t: string, verbs: seq<string>): (r: Option<string>)
    ensures r.Some? ==> IsTailCapture(t, r.value) && |r.value| < |t|
    ensures r.Some? ==> exists k :: 0 <= k < |verbs| && CiAt(t, 0, verbs[k])
  {
    if verbs == [] then None
    else if CiAt(t, 0, verbs[0]) && FocusTarget(t, |verbs[0]|).Some? then FocusTarget(t, |verbs[0]|)
    else
      var r := FocusWith(t, verbs[1..]);
      assert r.Some? ==> exists k :: 0 <= k < |verbs| && CiAt(t, 0, verbs[k]) by {
        if r.Some? {
          var k :| 0 <= k < |verbs[1..]| && CiAt(t, 0, verbs[1..][k]);
          assert CiAt(t, 0, verbs[k + 1]);
        }
      }
      r
  }

  /** Group 2 of the focus pattern: the spoken field name, when the pattern matches. */
  function MatchFocus(t: string): (r: Option<string>)
    requires IsTrimmed(t)
    ensures r.Some? ==> IsTailCapture(t, r.value) && |r.value| < |t|
    ensures r.Some? ==> exists k :: 0 <= k < |FocusVerbs| && CiAt(t, 0, FocusVerbs[k])
  {
    FocusWith(t, FocusVerbs)
  }

  /** No text begins with two of the focus verbs: their first two letters tell them apart. */
  lemma FocusVerbOnly(t: string, k: nat)
    requires k < |FocusVerbs| && CiAt(t, 0, FocusVerbs[k])
    ensures forall j :: 0 <= j < k ==> !CiAt(t, 0, FocusVerbs[j])
  {
    CiAtHead(t, 0, FocusVerbs[k]);
    forall j | 0 <= j < k
      ensures !CiAt(t, 0, FocusVerbs[j])
    {
      if FocusVerbs[j][0] != FocusVerbs[k][0] {
        CiAtDiffersAt(t, 0, FocusVerbs[j], 0);
      } else {
        CiAtDiffersAt(t, 0, FocusVerbs[j], 1);
      }
    }
  }

  /** Verbs that do not begin `t` are passed over. */
  lemma {:induction false} FocusWithSkip(t: string, verbs: seq<string>, k: nat)
    requires k <= |verbs|
    requires forall j :: 0 <= j < k ==> !CiAt(t, 0, verbs[j])
    ensures FocusWith(t, verbs) == FocusWith(t, verbs[k..])
    decreases k
  {
    if k > 0 {
      assert !CiAt(t, 0, verbs[0]);
      FocusWithSkip(t, verbs[1..], k - 1);
      assert verbs[1..][k - 1..] == verbs[k..];
    }
  }

  /** A text that begins with focus verb `k`, followed by a well-formed target, targets that. */
  lemma FocusWithVerb(t: string, k: nat)
    requires k < |FocusVerbs| && CiAt(t, 0, FocusVerbs[k])
    requires FocusTarget(t, |FocusVerbs[k]|).Some?
    ensures FocusWith(t, FocusVerbs) == FocusTarget(t, |FocusVerbs[k]|)
  {
    FocusVerbOnly(t, k);
    FocusWithSkip(t, FocusVerbs, k);
    assert FocusVerbs[k..][0] == FocusVerbs[k];
  }

  /** After the verb, white space and a target that does not begin with `text`. */
  lemma FocusTargetPlain(t: string, a: nat, q: nat)
    requires a < q < |t| && AllSpace(t[a..q]) && !IsSpace(t[q])
    requires !CiAt(t, q, "text") && NoLineTerminator(t[q..])
    ensures FocusTarget(t, a) == Some(t[q..])
  {
    SpaceRunOf(t, a, q - a);
    assert FocusTargetStart(t, a) == q;
  }

  /** `text for ` followed by a non-space ends where the target begins. */
  lemma TextForEndOf(t: string, q: nat)
    requires q + 9 < |t| && t[q..q + 9] == "text for " && !IsSpace(t[q + 9])
    ensures TextForEnd(t, q) == Some(q + 9)
  {
    var u := t[q..q + 9];
    assert CiAt(t, q, "text") by {
      forall k | 0 <= k < 4
        ensures FoldChar(t[q + k]) == "text"[k]
      {
        assert t[q + k] == u[k];
      }
    }
    assert CiAt(t, q + 5, "for") by {
      forall k | 0 <= k < 3
        ensures FoldChar(t[q + 5 + k]) == "for"[k]
      {
        assert t[q + 5 + k] == u[5 + k];
      }
    }
    assert t[q + 4] == u[4] && t[q + 5] == u[5] && t[q + 8] == u[8];
    assert t[q + 4..q + 5] == [t[q + 4]] && t[q + 8..q + 9] == [t[q + 8]];
    SpaceRunOf(t, q + 4, 1);
    SpaceRunOf(t, q + 8, 1);
  }

  /** After the verb, white space, `text for` and a target. */
  lemma FocusTargetTextFor(t: string, a: nat, q: nat)
    requires a < q && q + 9 < |t| && AllSpace(t[a..q]) && t[q..q + 9] == "text for "
    requires !IsSpace(t[q + 9]) && NoLineTerminator(t[q + 9..])
    ensures FocusTarget(t, a) == Some(t[q + 9..])
  {
    assert t[q] == t[q..q + 9][0];
    SpaceRunOf(t, a, q - a);
    TextForEndOf(t, q);
    assert FocusTargetStart(t, a) == q + 9;
  }

  /** `<verb> <x>`: a focus verb in any case, white space, and a target on one line that does not begin with `text`. */
  lemma MatchFocusOf(k: nat, v: string, w: string, x: string)
    requires k < |FocusVerbs| && CiEquals(v, FocusVerbs[k])
    requires AllSpace(w) && w != []
    requires x != [] && IsTrimmed(x) && NoLineTerminator(x) && !CiAt(x, 0, "text")
    ensures IsTrimmed(v + w + x) && MatchFocus(v + w + x) == Some(x)
  {
    var t := v + w + x;
    var a, q := |v|, |v| + |w|;
    assert t[0..a] == v && t[a..q] == w && t[q..] == x && t[q] == x[0] && t[|t| - 1] == x[|x| - 1];
    CiAtPiece(t, 0, v, FocusVerbs[k]);
    CiAtHead(t, 0, FocusVerbs[k]);
    assert 'a' <= FocusVerbs[k][0] <= 'z';
    LetterNotSpace(t[0]);
    CiAtSuffix(t, q, "text");
    FocusTargetPlain(t, a, q);
    FocusWithVerb(t, k);
  }

  /** `<verb> text for <x>`: the optional `text for` is not part of the target. */
  lemma MatchFocusTextFor(k: nat, v: string, w: string, x: string)
    requires k < |FocusVerbs| && CiEquals(v, FocusVerbs[k])
    requires AllSpace(w) && w != []
    requires x != [] && IsTrimmed(x) && NoLineTerminator(x)
    ensures IsTrimmed(v + w + "text for " + x) && MatchFocus(v + w + "text for " + x) == Some(x)
  {
    var t := v + w + "text for " + x;
    var a, q := |v|, |v| + |w|;
    assert t[0..a] == v && t[a..q] == w && t[q..q + 9] == "text for " && t[q + 9..] == x;
    assert t[q + 9] == x[0] && t[|t| - 1] == x[|x| - 1];
    CiAtPiece(t, 0, v, FocusVerbs[k]);
    CiAtHead(t, 0, FocusVerbs[k]);
    assert 'a' <= FocusVerbs[k][0] <= 'z';
    LetterNotSpace(t[0]);
    FocusTargetTextFor(t, a, q);
    FocusWithVerb(t, k);
  }

  // ---------- clear: /^clear\s+(.+)$/i ----------

  /** Group 1 of the clear pattern. */
  function MatchClear(t: string): (r: Option<string>)
    requires IsTrimmed(t)
    ensures r.Some? ==> CiAt(t, 0, "clear") && IsTailCapture(t, r.value) && |r.value| < |t| - 5
  {
    if CiAt(t, 0, "clear") then
      var w := SpaceRun(t, 5);
      RestOfLineIsTail(t, 5 + w);
      if w > 0 then RestOfLine(t, 5 + w) else None
    else None
  }

  /** `clear <x>`: `clear` in any case, white space, and a target on one line. */
  lemma MatchClearOf(v: string, w: string, x: string)
    requires CiEquals(v, "clear") && AllSpace(w) && w != []
    requires x != [] && IsTrimmed(x) && NoLineTerminator(x)
    ensures IsTrimmed(v + w + x) && MatchClear(v + w + x) == Some(x)
  {
    var t := v + w + x;
    var e := 5 + |w|;
    assert t[0..5] == v && t[5..e] == w && t[e..] == x && t[e] == x[0];
    assert t[|t| - 1] == x[|x| - 1];
    CiAtPiece(t, 0, v, "clear");
    CiAtHead(t, 0, "clear");
    SpaceRunOf(t, 5, |w|);
  }

  // ---------- set: /^(?:set\s+)?(name|description|notes?|inspector|inspection(?:\s+)date|date)\s*(is|to|:)?\s*(.+)$/i ----------

  /** Groups 1 and 3 of the set pattern: the spoken field word and the raw value. */
  datatype SetMatch = SetMatch(word: string, value: string)

  /** Length of the `(is|to|:)` of the set pattern at index `i` (0: none). */
  function SetConnector(t: string, i: nat): (n: nat)
    requires i <= |t|
    ensures i + n <= |t|
  {
    if CiAt(t, i, "is") || CiAt(t, i, "to") then 2
    else if CiAt(t, i, ":") then 1
    else 0
  }

  /**
   * `\s*(is|to|:)?\s*(.+)$` from index `p` of a trimmed string. The connector is
   * taken when something follows it; a connector that ends the string is the value.
   * There is no word boundary: in `name Tom` the connector is the `To` of `Tom`.
   */
  function SetValue(t: string, p: nat): (r: Option<string>)
    requires p <= |t|
    ensures r.Some? ==> IsTailCapture(t, r.value) && |r.value| <= |t| - p
  {
    var start := SetValueStart(t, p);
    RestOfLineIsTail(t, start);
    RestOfLine(t, start)
  }

  /** Where `(.+)` of the set pattern starts: after the white space, and after the connector and its white space when a value follows them. */
  function SetValueStart(t: string, p: nat): (start: nat)
    requires p <= |t|
    ensures p <= start <= |t|
  {
    var r1 := p + SpaceRun(t, p);
    var c := SetConnector(t, r1);
    if c > 0 && r1 + c + SpaceRun(t, r1 + c) < |t| then r1 + c + SpaceRun(t, r1 + c) else r1
  }

  /** With no connector after the white space, `(.+)` starts right after the white space. */
  lemma SetValueStartPlain(t: string, p: nat, n: nat)
    requires p + n <= |t| && SpaceRun(t, p) == n && SetConnector(t, p + n) == 0
    ensures SetValueStart(t, p) == p + n
  {
  }

  /** With a connector and a value after it, `(.+)` starts after the connector and the white space that follows it. */
  lemma SetValueStartConnector(t: string, p: nat, i: nat, c: nat, r: nat)
    requires p <= |t| && i == p + SpaceRun(t, p) && SetConnector(t, i) == c && c > 0
    requires r == i + c + SpaceRun(t, i + c) && r < |t|
    ensures SetValueStart(t, p) == r
  {
  }

  /** `inspection\s+date` at `p`: the index after it. */
  function InspectionDateEnd(t: string, p: nat): (r: Option<nat>)
    requires p <= |t|
    ensures r.Some? ==> p + 15 <= r.value <= |t| && CiAt(t, r.value - 4, "date")
  {
    if CiAt(t, p, "inspection") then
      var w := SpaceRun(t, p + 10);
      if w > 0 && CiAt(t, p + 10 + w, "date") then Some(p + 14 + w) else None
    else None
  }

  /** One alternative of the field-word group: a word that holds the keyword of `field`, or `inspection\s+date`. */
  datatype FieldWordPattern = Word(lit: string, field: Field) | InspectionDateWords

  /** The field-word alternatives in the order the set pattern tries them. */
  const FieldWordPatterns: seq<FieldWordPattern> := [
    Word("name", Name), Word("description", Description), Word("notes", Notes), Word("note", Notes),
    Word("inspector", Inspector), InspectionDateWords, Word("date", InspectionDate)
  ]

  predicate WellFormedPattern(a: FieldWordPattern) {
    a.Word? ==> a.lit != [] && Keyword(a.field) <= a.lit && forall k :: 0 <= k < |a.lit| ==> a.lit[k] as int < 128
  }

  lemma FieldWordPatternsWellFormed()
    ensures forall k :: 0 <= k < |FieldWordPatterns| ==> WellFormedPattern(FieldWordPatterns[k])
  {
  }

  /** Every field word begins with a letter other than `s`, so none is taken for white space or for `set`. */
  lemma FieldWordsBeginWithLetter()
    ensures forall k :: 0 <= k < |FieldWordPatterns| && FieldWordPatterns[k].Word? ==>
      |FieldWordPatterns[k].lit| >= 2 && 'a' <= FieldWordPatterns[k].lit[0] <= 'z' && FieldWordPatterns[k].lit[0] != 's'
  {
  }

  /** Where alternative `a` ends when it matches at `p`. */
  function PatternEnd(t: string, p: nat, a: FieldWordPattern): (r: Option<nat>)
    requires p <= |t|
    ensures r.Some? ==> p < r.value <= |t|
  {
    match a
    case Word(lit, _) => if lit != [] && CiAt(t, p, lit) then Some(p + |lit|) else None
    case InspectionDateWords => InspectionDateEnd(t, p)
  }

  /** `inspection\s+date` ends in `date`. */
  lemma InspectionDateWordIsSpoken(t: string, p: nat, e: nat)
    requires p <= e <= |t|
    requires InspectionDateEnd(t, p) == Some(e)
    ensures FieldFromSpoken(t[p..e]).Some?
  {
    var w := ToLower(t[p..e]);
    var d := t[e - 4..e];
    forall k | 0 <= k < 4
      ensures w[e - 4 - p + k] == "date"[k]
    {
      assert FoldChar(t[e - 4 + k]) == "date"[k];
      assert d[k] == t[e - 4 + k] == t[p..e][e - 4 - p + k];
    }
    assert OccursAt(w, "date", e - 4 - p) by {
      assert w[e - 4 - p..e - p] == "date";
    }
    assert Mentions(t[p..e], InspectionDate);
  }

  /** A field word spelled as a literal that holds the keyword of `f`. */
  lemma LiteralWordIsSpoken(t: string, p: nat, e: nat, lit: string, f: Field)
    requires e == p + |lit| && CiAt(t, p, lit)
    requires forall k :: 0 <= k < |lit| ==> lit[k] as int < 128
    requires Keyword(f) <= lit
    ensures FieldFromSpoken(t[p..e]).Some?
  {
    var x := t[p..e];
    assert Mentions(x, f) by {
      forall k | 0 <= k < |lit|
        ensures ToLower(x)[k] == lit[k]
      {
        assert x[k] == t[p + k];
      }
      assert ToLower(x) == lit;
      assert Contains(lit, Keyword(f));
    }
  }

  /** Every field word the set pattern matches is one `fieldFromSpoken` resolves. */
  lemma PatternWordIsSpoken(t: string, p: nat, a: FieldWordPattern, e: nat)
    requires p <= e <= |t|
    requires WellFormedPattern(a)
    requires PatternEnd(t, p, a) == Some(e)
    ensures FieldFromSpoken(t[p..e]).Some?
  {
    if a.Word? {
      LiteralWordIsSpoken(t, p, e, a.lit, a.field);
    } else {
      InspectionDateWordIsSpoken(t, p, e);
    }
  }

  /** The first alternative of `pats` that matches at `p` and is followed by a well-formed value. */
  function SetWith(t: string, p: nat, pats: seq<FieldWordPattern>): (r: Option<SetMatch>)
    requires p <= |t|
    requires forall k :: 0 <= k < |pats| ==> WellFormedPattern(pats[k])
    ensures r.Some? ==> IsTailCapture(t, r.value.value) && FieldFromSpoken(r.value.word).Some?
    ensures r.Some? ==> r.value.word <= t[p..]
  {
    if pats == [] then None
    else
      var e := PatternEnd(t, p, pats[0]);
      if e.Some? && SetValue(t, e.value).Some? then
        PatternWordIsSpoken(t, p, pats[0], e.value);
        Some(SetMatch(t[p..e.value], SetValue(t, e.value).value))
      else SetWith(t, p, pats[1..])
  }

  /** Alternatives that do not match at `p` are passed over. */
  lemma {:induction false} SetWithSkip(t: string, p: nat, pats: seq<FieldWordPattern>, k: nat)
    requires p <= |t| && k <= |pats|
    requires forall j :: 0 <= j < |pats| ==> WellFormedPattern(pats[j])
    requires forall j :: 0 <= j < k ==> PatternEnd(t, p, pats[j]).None?
    ensures SetWith(t, p, pats) == SetWith(t, p, pats[k..])
    decreases k
  {
    if k > 0 {
      assert PatternEnd(t, p, pats[0]).None?;
      SetWithSkip(t, p, pats[1..], k - 1);
      assert pats[1..][k - 1..] == pats[k..];
    }
  }

  /** The connector of the set pattern spelled in any case: `is`, `to` or `:`. */
  predicate IsSetConnector(c: string) {
    CiEquals(c, "is") || CiEquals(c, "to") || CiEquals(c, ":")
  }

  lemma SetConnectorOf(t: string, i: nat, c: string)
    requires IsSetConnector(c)
    requires i + |c| <= |t| && t[i..i + |c|] == c
    ensures SetConnector(t, i) == |c| && !IsSpace(t[i]) && FoldChar(t[i]) != 's'
  {
    assert t[i] == c[0];
    if CiEquals(c, "is") {
      CiAtPiece(t, i, c, "is");
      CiAtHead(t, i, "is");
    } else if CiEquals(c, "to") {
      CiAtPiece(t, i, c, "to");
      CiAtHead(t, i, "to");
    } else {
      CiAtPiece(t, i, c, ":");
      assert FoldChar(t[i + 0]) == ":"[0];
      CiAtDiffersAt(t, i, "is", 0);
      CiAtDiffersAt(t, i, "to", 0);
    }
  }

  /** White space, a connector at `i`, white space and a value on one line at `r`, after the field word. */
  lemma SetValueOf(t: string, e: nat, i: nat, c: string, r: nat)
    requires IsSetConnector(c) && e <= i && i + |c| <= r < |t|
    requires AllSpace(t[e..i]) && t[i..i + |c|] == c && AllSpace(t[i + |c|..r])
    requires !IsSpace(t[r]) && NoLineTerminator(t[r..])
    ensures SetValue(t, e) == Some(t[r..])
  {
    SetConnectorOf(t, i, c);
    SpaceRunOf(t, e, i - e);
    SpaceRunOf(t, i + |c|, r - i - |c|);
    SetValueStartConnector(t, e, i, |c|, r);
  }

  /** A field word spelled at the start of `t` stops every alternative tried before its own. */
  lemma EarlierPatternsFail(t: string, k: nat)
    requires k < |FieldWordPatterns| && FieldWordPatterns[k].Word?
    requires CiAt(t, 0, FieldWordPatterns[k].lit)
    requires |FieldWordPatterns[k].lit| < |t| && FoldChar(t[|FieldWordPatterns[k].lit|]) != 's'
    ensures forall j :: 0 <= j < k ==> PatternEnd(t, 0, FieldWordPatterns[j]).None?
    ensures PatternEnd(t, 0, FieldWordPatterns[k]) == Some(|FieldWordPatterns[k].lit|)
  {
    var lit := FieldWordPatterns[k].lit;
    CiAtHead(t, 0, lit);
    forall j | 0 <= j < k
      ensures PatternEnd(t, 0, FieldWordPatterns[j]).None?
    {
      var b := FieldWordPatterns[j];
      if b.InspectionDateWords? {
        CiAtDiffersAt(t, 0, "inspection", 0);
      } else if b.lit[0] != lit[0] {
        CiAtDiffersAt(t, 0, b.lit, 0);
      } else if b.lit[1] != lit[1] {
        CiAtDiffersAt(t, 0, b.lit, 1);
      } else {
        assert b.lit == "notes" && lit == "note";
        CiAtDiffersAt(t, 0, b.lit, 4);
      }
    }
  }

  /** A field word spelled at `p` stops every alternative tried before its own. */
  lemma EarlierPatternsFailAt(t: string, p: nat, k: nat)
    requires k < |FieldWordPatterns| && FieldWordPatterns[k].Word?
    requires CiAt(t, p, FieldWordPatterns[k].lit)
    requires p + |FieldWordPatterns[k].lit| < |t| && FoldChar(t[p + |FieldWordPatterns[k].lit|]) != 's'
    ensures forall j :: 0 <= j < k ==> PatternEnd(t, p, FieldWordPatterns[j]).None?
    ensures PatternEnd(t, p, FieldWordPatterns[k]) == Some(p + |FieldWordPatterns[k].lit|)
  {
    var lit := FieldWordPatterns[k].lit;
    CiAtHead(t, p, lit);
    forall j | 0 <= j < k
      ensures PatternEnd(t, p, FieldWordPatterns[j]).None?
    {
      var b := FieldWordPatterns[j];
      if b.InspectionDateWords? {
        CiAtDiffersAt(t, p, "inspection", 0);
      } else if b.lit[0] != lit[0] {
        CiAtDiffersAt(t, p, b.lit, 0);
      } else if b.lit[1] != lit[1] {
        CiAtDiffersAt(t, p, b.lit, 1);
      } else {
        assert b.lit == "notes" && lit == "note";
        CiAtDiffersAt(t, p, b.lit, 4);
      }
    }
  }

  /** The first alternative that matches at `p`, followed by a well-formed value, gives the match. */
  lemma SetWithAt(t: string, p: nat, pats: seq<FieldWordPattern>, k: nat, e: nat, v: string)
    requires p <= |t| && k < |pats|
    requires forall j :: 0 <= j < |pats| ==> WellFormedPattern(pats[j])
    requires forall j :: 0 <= j < k ==> PatternEnd(t, p, pats[j]).None?
    requires PatternEnd(t, p, pats[k]) == Some(e) && SetValue(t, e) == Some(v)
    ensures SetWith(t, p, pats) == Some(SetMatch(t[p..e], v))
  {
    SetWithSkip(t, p, pats, k);
    assert pats[k..][0] == pats[k];
  }

  /**
   * The set pattern: with the optional `set\s+` prefix first (its `\s+` taken
   * whole, since no field word starts with white space), then without it.
   */
  function MatchSet(t: string): (r: Option<SetMatch>)
    requires IsTrimmed(t)
    ensures r.Some? ==> IsTailCapture(t, r.value.value) && FieldFromSpoken(r.value.word).Some?
  {
    FieldWordPatternsWellFormed();
    var w := if CiAt(t, 0, "set") then SpaceRun(t, 3) else 0;
    var withSet := if w > 0 then SetWith(t, 3 + w, FieldWordPatterns) else None;
    if withSet.Some? then withSet else SetWith(t, 0, FieldWordPatterns)
  }

  /** Field word `k` spelled at the start of `t` and followed by a well-formed value. */
  lemma SetWithWord(t: string, k: nat, v: string)
    requires k < |FieldWordPatterns| && FieldWordPatterns[k].Word?
    requires CiAt(t, 0, FieldWordPatterns[k].lit)
    requires |FieldWordPatterns[k].lit| < |t| && FoldChar(t[|FieldWordPatterns[k].lit|]) != 's'
    requires SetValue(t, |FieldWordPatterns[k].lit|) == Some(v)
    ensures (FieldWordPatternsWellFormed();
      SetWith(t, 0, FieldWordPatterns) == Some(SetMatch(t[..|FieldWordPatterns[k].lit|], v)))
  {
    EarlierPatternsFail(t, k);
    FieldWordPatternsWellFormed();
    SetWithAt(t, 0, FieldWordPatterns, k, |FieldWordPatterns[k].lit|, v);
  }

  /** A text that begins with field word `k` is matched without the `set` prefix. */
  lemma MatchSetWord(t: string, k: nat, v: string)
    requires k < |FieldWordPatterns| && FieldWordPatterns[k].Word?
    requires CiAt(t, 0, FieldWordPatterns[k].lit)
    requires |FieldWordPatterns[k].lit| < |t| && FoldChar(t[|FieldWordPatterns[k].lit|]) != 's'
    requires SetValue(t, |FieldWordPatterns[k].lit|) == Some(v)
    ensures !IsSpace(t[0])
    ensures IsTrimmed(t) ==> MatchSet(t) == Some(SetMatch(t[..|FieldWordPatterns[k].lit|], v))
  {
    var lit := FieldWordPatterns[k].lit;
    CiAtHead(t, 0, lit);
    assert 'a' <= lit[0] <= 'z' && lit[0] != 's';
    LetterNotSpace(t[0]);
    CiAtDiffersAt(t, 0, "set", 0);
    SetWithWord(t, k, v);
  }

  /** Where the pieces of `<word> <c> <x>` sit. */
  lemma SetPieces(wd: string, s1: string, c: string, s2: string, x: string)
    requires x != []
    ensures var t, i := wd + s1 + c + s2 + x, |wd| + |s1|;
      var r := i + |c| + |s2|;
      t[0..|wd|] == wd && t[|wd|..i] == s1 && t[i..i + |c|] == c && t[i + |c|..r] == s2 && t[r..] == x
      && t[|wd|..] == s1 + c + s2 + x && t[r] == x[0] && t[|t| - 1] == x[|x| - 1]
  {
  }

  /**
   * `<word> <c> <x>`: a field word in any case, a connector in any case with any white
   * space around it, and a value on one line: `Name is John`.
   */
  lemma MatchSetOf(k: nat, wd: string, s1: string, c: string, s2: string, x: string)
    requires k < |FieldWordPatterns| && FieldWordPatterns[k].Word? && CiEquals(wd, FieldWordPatterns[k].lit)
    requires AllSpace(s1) && IsSetConnector(c) && AllSpace(s2)
    requires x != [] && IsTrimmed(x) && NoLineTerminator(x)
    ensures IsTrimmed(wd + s1 + c + s2 + x) && MatchSet(wd + s1 + c + s2 + x) == Some(SetMatch(wd, x))
  {
    var t := wd + s1 + c + s2 + x;
    SetPieces(wd, s1, c, s2, x);
    SetLayoutValue(wd, s1, c, s2, x);
    SetLayoutWordEnd(wd, s1, c, s2, x);
    CiAtPiece(t, 0, wd, FieldWordPatterns[k].lit);
    MatchSetWord(t, k, x);
  }

  /** The value of `<word> <c> <x>` is `x`. */
  lemma SetLayoutValue(wd: string, s1: string, c: string, s2: string, x: string)
    requires AllSpace(s1) && IsSetConnector(c) && AllSpace(s2)
    requires x != [] && IsTrimmed(x) && NoLineTerminator(x)
    ensures var t := wd + s1 + c + s2 + x;
      |wd| < |t| && SetValue(t, |wd|) == Some(x)
  {
    var t := wd + s1 + c + s2 + x;
    var i := |wd| + |s1|;
    SetPieces(wd, s1, c, s2, x);
    SetValueOf(t, |wd|, i, c, i + |c| + |s2|);
  }

  /** What follows the field word of `<word> <c> <x>` is white space or a connector, never an `s`. */
  lemma SetLayoutWordEnd(wd: string, s1: string, c: string, s2: string, x: string)
    requires AllSpace(s1) && IsSetConnector(c) && x != []
    ensures var t := wd + s1 + c + s2 + x;
      |wd| < |t| && FoldChar(t[|wd|]) != 's'
  {
    var t := wd + s1 + c + s2 + x;
    var i := |wd| + |s1|;
    SetPieces(wd, s1, c, s2, x);
    if s1 != [] {
      assert t[|wd|] == t[|wd|..i][0];
    } else {
      SetConnectorOf(t, i, c);
    }
  }

  /** Field word `k` spelled at `p`, followed by the value `x` from `e` on: the alternatives tried at `p` give that match. */
  lemma SetWithWordAt(t: string, p: nat, k: nat, e: nat, x: string)
    requires k < |FieldWordPatterns| && FieldWordPatterns[k].Word?
    requires CiAt(t, p, FieldWordPatterns[k].lit) && e == p + |FieldWordPatterns[k].lit|
    requires e < |t| && FoldChar(t[e]) != 's'
    requires SetValue(t, e) == Some(x)
    ensures (FieldWordPatternsWellFormed(); SetWith(t, p, FieldWordPatterns) == Some(SetMatch(t[p..e], x)))
  {
    EarlierPatternsFailAt(t, p, k);
    FieldWordPatternsWellFormed();
    SetWithAt(t, p, FieldWordPatterns, k, e, x);
  }

  /** A text that begins with `set` and white space, after which a field word matches: that is the match. */
  lemma MatchSetAfterPrefix(t: string, n: nat, m: SetMatch)
    requires IsTrimmed(t) && CiAt(t, 0, "set") && SpaceRun(t, 3) == n && n > 0
    requires (FieldWordPatternsWellFormed(); SetWith(t, 3 + n, FieldWordPatterns) == Some(m))
    ensures MatchSet(t) == Some(m)
  {
  }

  /** `set` in any case and white space before a text that begins with a non-space. */
  lemma SetPrefixRun(v: string, w: string, u: string)
    requires CiEquals(v, "set") && AllSpace(w) && u != [] && !IsSpace(u[0])
    ensures var t := v + w + u;
      CiAt(t, 0, "set") && SpaceRun(t, 3) == |w| && !IsSpace(t[0]) && t[3 + |w|..] == u
  {
    var t := v + w + u;
    assert t[0..3] == v && t[3..3 + |w|] == w && t[3 + |w|] == u[0] && t[0] == v[0];
    CiAtPiece(t, 0, v, "set");
    CiAtHead(t, 0, "set");
    LetterNotSpace(t[0]);
    SpaceRunOf(t, 3, |w|);
  }

  /** After any head `g`, field word `k`, a connector and a value are matched by the alternative for `k`. */
  lemma SetWithAfterHead(k: nat, g: string, wd: string, s1: string, c: string, s2: string, x: string)
    requires k < |FieldWordPatterns| && FieldWordPatterns[k].Word? && CiEquals(wd, FieldWordPatterns[k].lit)
    requires AllSpace(s1) && IsSetConnector(c) && AllSpace(s2)
    requires x != [] && IsTrimmed(x) && NoLineTerminator(x)
    ensures (FieldWordPatternsWellFormed();
      SetWith(g + wd + s1 + c + s2 + x, |g|, FieldWordPatterns) == Some(SetMatch(wd, x)))
  {
    var h := g + wd;
    var t := h + s1 + c + s2 + x;
    assert t == g + wd + s1 + c + s2 + x;
    assert t[|g|..|h|] == wd;
    CiAtPiece(t, |g|, wd, FieldWordPatterns[k].lit);
    SetLayoutWordEnd(h, s1, c, s2, x);
    SetLayoutValue(h, s1, c, s2, x);
    SetWithWordAt(t, |g|, k, |h|, x);
  }

  /** `set <word> <c> <x>`: the prefix in any case before a field word, a connector and a value: `set notes to ...`. */
  lemma MatchSetPrefixedOf(k: nat, v: string, w: string, wd: string, s1: string, c: string, s2: string, x: string)
    requires CiEquals(v, "set") && AllSpace(w) && w != []
    requires k < |FieldWordPatterns| && FieldWordPatterns[k].Word? && CiEquals(wd, FieldWordPatterns[k].lit)
    requires AllSpace(s1) && IsSetConnector(c) && AllSpace(s2)
    requires x != [] && IsTrimmed(x) && NoLineTerminator(x)
    ensures IsTrimmed(v + w + wd + s1 + c + s2 + x)
      && MatchSet(v + w + wd + s1 + c + s2 + x) == Some(SetMatch(wd, x))
  {
    var u := wd + s1 + c + s2 + x;
    var t := (v + w) + wd + s1 + c + s2 + x;
    assert t == v + w + u == v + w + wd + s1 + c + s2 + x;
    FieldWordsBeginWithLetter();
    assert FoldChar(wd[0 + 0]) == FieldWordPatterns[k].lit[0];
    LetterNotSpace(wd[0]);
    assert u[0] == wd[0] && t[|t| - 1] == x[|x| - 1];
    SetPrefixRun(v, w, u);
    SetWithAfterHead(k, v + w, wd, s1, c, s2, x);
    MatchSetAfterPrefix(t, |w|, SetMatch(wd, x));
  }

  /** `x` begins with a connector of the set pattern, in any case. */
  predicate StartsWithSetConnector(x: string) {
    CiAt(x, 0, "is") || CiAt(x, 0, "to") || CiAt(x, 0, ":")
  }

  /** Without a connector, the value of `<word> <s> <x>` is `x`. */
  lemma SetLayoutPlainValue(wd: string, s: string, x: string)
    requires AllSpace(s)
    requires x != [] && IsTrimmed(x) && NoLineTerminator(x) && !StartsWithSetConnector(x)
    ensures var t := wd + s + x;
      |wd| < |t| && SetValue(t, |wd|) == Some(x)
  {
    var t := wd + s + x;
    var r := |wd| + |s|;
    assert t[|wd|..r] == s && t[r..] == x && t[r] == x[0];
    SpaceRunOf(t, |wd|, |s|);
    CiAtSuffix(t, r, "is");
    CiAtSuffix(t, r, "to");
    CiAtSuffix(t, r, ":");
    assert SetConnector(t, r) == 0;
    SetValueStartPlain(t, |wd|, |s|);
  }

  /** `<word> <x>` with no connector, the field word in any case: `notes cracked near the gate`. */
  lemma MatchSetPlainOf(k: nat, wd: string, s: string, x: string)
    requires k < |FieldWordPatterns| && FieldWordPatterns[k].Word? && CiEquals(wd, FieldWordPatterns[k].lit)
    requires AllSpace(s) && s != []
    requires x != [] && IsTrimmed(x) && NoLineTerminator(x) && !StartsWithSetConnector(x)
    ensures IsTrimmed(wd + s + x) && MatchSet(wd + s + x) == Some(SetMatch(wd, x))
  {
    var t := wd + s + x;
    assert t[..|wd|] == wd && t[|wd|] == s[0] && t[|t| - 1] == x[|x| - 1];
    SetLayoutPlainValue(wd, s, x);
    CiAtPiece(t, 0, wd, FieldWordPatterns[k].lit);
    MatchSetWord(t, k, x);
  }

  /** `inspection` spelled at the start of `t` stops the five alternatives before `inspection\s+date`. */
  lemma InspectionDateEarlierFail(t: string)
    requires CiAt(t, 0, "inspection")
    ensures forall j :: 0 <= j < 5 ==> PatternEnd(t, 0, FieldWordPatterns[j]).None?
  {
    CiAtHead(t, 0, "inspection");
    forall j | 0 <= j < 4
      ensures PatternEnd(t, 0, FieldWordPatterns[j]).None?
    {
      CiAtDiffersAt(t, 0, FieldWordPatterns[j].lit, 0);
    }
    assert FoldChar(t[0 + 7]) == "inspection"[7];
    CiAtDiffersAt(t, 0, "inspector", 7);
  }

  /** `inspection`, white space and `date`, in any case, at the start of `t`: the two-word field word ends after `date`. */
  lemma InspectionDateWordEnd(a: string, w: string, b: string, rest: string)
    requires CiEquals(a, "inspection") && AllSpace(w) && w != [] && CiEquals(b, "date")
    ensures var t := a + w + b + rest;
      CiAt(t, 0, "inspection") && PatternEnd(t, 0, InspectionDateWords) == Some(|a| + |w| + |b|)
  {
    var t := a + w + b + rest;
    assert t[0..10] == a && t[10..10 + |w|] == w && t[10 + |w|..14 + |w|] == b;
    CiAtPiece(t, 0, a, "inspection");
    CiAtPiece(t, 10 + |w|, b, "date");
    CiAtHead(t, 10 + |w|, "date");
    LetterNotSpace(t[10 + |w|]);
    SpaceRunOf(t, 10, |w|);
  }

  /** The two-word field word at the start of `t`, followed by a well-formed value, gives the match. */
  lemma MatchSetInspectionDate(t: string, e: nat, v: string)
    requires IsTrimmed(t) && CiAt(t, 0, "inspection")
    requires PatternEnd(t, 0, InspectionDateWords) == Some(e) && SetValue(t, e) == Some(v)
    ensures MatchSet(t) == Some(SetMatch(t[..e], v))
  {
    InspectionDateEarlierFail(t);
    FieldWordPatternsWellFormed();
    assert FieldWordPatterns[5] == InspectionDateWords;
    SetWithAt(t, 0, FieldWordPatterns, 5, e, v);
    CiAtHead(t, 0, "inspection");
    CiAtDiffersAt(t, 0, "set", 0);
  }

  /** `inspection date <x>` with no connector, in any case and spacing: `inspection date August 20 2025`. */
  lemma MatchSetInspectionDatePlainOf(a: string, w: string, b: string, s: string, x: string)
    requires CiEquals(a, "inspection") && AllSpace(w) && w != [] && CiEquals(b, "date")
    requires AllSpace(s)
    requires x != [] && IsTrimmed(x) && NoLineTerminator(x) && !StartsWithSetConnector(x)
    ensures IsTrimmed(a + w + b + s + x) && MatchSet(a + w + b + s + x) == Some(SetMatch(a + w + b, x))
  {
    var t := a + w + b + s + x;
    var e := |a| + |w| + |b|;
    assert a + w + b + (s + x) == t && (a + w + b) + s + x == t;
    InspectionDateWordEnd(a, w, b, s + x);
    SetLayoutPlainValue(a + w + b, s, x);
    assert t[0] == a[0] && t[|t| - 1] == x[|x| - 1] && t[..e] == a + w + b;
    CiAtHead(t, 0, "inspection");
    LetterNotSpace(t[0]);
    MatchSetInspectionDate(t, e, x);
  }

  /** `inspection date <c> <x>`, with a connector: `Inspection Date is 8/20/2025`. */
  lemma MatchSetInspectionDateOf(a: string, w: string, b: string, s1: string, c: string, s2: string, x: string)
    requires CiEquals(a, "inspection") && AllSpace(w) && w != [] && CiEquals(b, "date")
    requires AllSpace(s1) && IsSetConnector(c) && AllSpace(s2)
    requires x != [] && IsTrimmed(x) && NoLineTerminator(x)
    ensures IsTrimmed(a + w + b + s1 + c + s2 + x)
      && MatchSet(a + w + b + s1 + c + s2 + x) == Some(SetMatch(a + w + b, x))
  {
    var t := a + w + b + s1 + c + s2 + x;
    var e := |a| + |w| + |b|;
    assert a + w + b + (s1 + c + s2 + x) == t && (a + w + b) + s1 + c + s2 + x == t;
    InspectionDateWordEnd(a, w, b, s1 + c + s2 + x);
    SetLayoutValue(a + w + b, s1, c, s2, x);
    assert t[0] == a[0] && t[|t| - 1] == x[|x| - 1] && t[..e] == a + w + b;
    CiAtHead(t, 0, "inspection");
    LetterNotSpace(t[0]);
    MatchSetInspectionDate(t, e, x);
  }

  /** A text that begins with no letter of a focus verb is no focus command. */
  lemma NoFocusVerb(t: string)
    requires IsTrimmed(t) && t != [] && FoldChar(t[0]) !in {'e', 's', 'b', 'f', 'g'}
    ensures MatchFocus(t).None?
  {
    forall j | 0 <= j < |FocusVerbs|
      ensures !CiAt(t, 0, FocusVerbs[j])
    {
      CiAtDiffersAt(t, 0, FocusVerbs[j], 0);
    }
    FocusWithSkip(t, FocusVerbs, |FocusVerbs|);
  }

  /** No field word starts at `p` when the letter there begins none of them. */
  lemma NoFieldWordAt(t: string, p: nat)
    requires p < |t| && FoldChar(t[p]) !in {'n', 'd', 'i'}
    ensures forall j :: 0 <= j < |FieldWordPatterns| ==> PatternEnd(t, p, FieldWordPatterns[j]).None?
  {
    forall j | 0 <= j < |FieldWordPatterns|
      ensures PatternEnd(t, p, FieldWordPatterns[j]).None?
    {
      if FieldWordPatterns[j].Word? {
        CiAtDiffersAt(t, p, FieldWordPatterns[j].lit, 0);
      } else {
        CiAtDiffersAt(t, p, "inspection", 0);
      }
    }
  }

  /** A text that begins with neither `set` nor a field word is no set command. */
  lemma NoSetWord(t: string)
    requires IsTrimmed(t) && t != [] && FoldChar(t[0]) !in {'s', 'n', 'd', 'i'}
    ensures MatchSet(t).None?
  {
    CiAtDiffersAt(t, 0, "set", 0);
    NoFieldWordAt(t, 0);
    FieldWordPatternsWellFormed();
    SetWithSkip(t, 0, FieldWordPatterns, |FieldWordPatterns|);
  }

  /** With no word boundary, the `To` of `Tom` is taken as the connector: `name Tom` sets the name to `m`. */
  lemma NameTomSetsM()
    ensures MatchSet("name Tom") == Some(SetMatch("name", "m"))
  {
    assert "name Tom" == "name" + " " + "To" + "" + "m";
    MatchSetOf(0, "name", " ", "To", "", "m");
  }

  /** The page's voice tip `set notes to ...`: the notes take whatever follows `to `. */
  lemma SetNotesTo(x: string)
    requires x != [] && IsTrimmed(x) && NoLineTerminator(x)
    ensures MatchSet("set notes to " + x) == Some(SetMatch("notes", x))
  {
    assert "set" + " " + "notes" + " " + "to" + " " == "set notes to ";
    MatchSetPrefixedOf(2, "set", " ", "notes", " ", "to", " ", x);
  }

  /** `August 20 2025` is a value the set pattern takes whole: one line, trimmed, no connector in front. */
  lemma TipDateIsPlainValue()
    ensures var x := "August 20 2025";
      x != [] && IsTrimmed(x) && NoLineTerminator(x) && !StartsWithSetConnector(x)
  {
    var x := "August 20 2025";
    CiAtDiffersAt(x, 0, "is", 0);
    CiAtDiffersAt(x, 0, "to", 0);
    CiAtDiffersAt(x, 0, ":", 0);
  }

  /** The page's voice tip `inspection date August 20 2025`: the two-word field word and the date after it. */
  lemma InspectionDateTip()
    ensures MatchSet("inspection date August 20 2025") == Some(SetMatch("inspection date", "August 20 2025"))
  {
    var x := "August 20 2025";
    TipDateIsPlainValue();
    assert "inspection" + " " + "date" == "inspection date";
    assert "inspection date" + " " + x == "inspection date August 20 2025";
    MatchSetInspectionDatePlainOf("inspection", " ", "date", " ", x);
  }
}
