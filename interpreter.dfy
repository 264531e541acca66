/**
 * The dictation state machine of the item-creation page, as pure functions
 * from the page state before a step to the page state after it:
 * `stopDictation`, `applyToField`, `appendToField`, `handleSpeechChunk`,
 * the state `startRecognizer` sets and the batch loop of `recog.onresult`.
 *
 * React state updates are applied in order; the updaters passed to `setForm`
 * see the latest form. The one value the result handler reads from the render
 * that created it, rather than from the latest state, is `activeField`
 * (line 239); `HandleSpeechChunk` receives it as the parameter `seen`.
 */
module Interpreter {
  import opened Wrappers
  import opened Text
  import opened Calendar
  import opened IsoDate
  import opened ItemForm
  import opened Grammar

  /** `"global" | "field"` */
  datatype Mode = Global | PerField

  datatype State = State(
    form: Form,
    activeField: Option<Field>,
    listening: bool,
    mode: Option<Mode>,
    transcript: string)

  const InitialState: State := State(InitialForm, None, false, None, "")

  /** A stored inspection date: empty, or ten characters shaped like the output of `toISODate` (`YYYY-MM-DD`, or starting with `+` or `-`). */
  predicate DateText(v: string) {
    v == "" || (|v| == 10 && (IsIsoShape(v) || v[0] == '+' || v[0] == '-'))
  }

  /** What every step keeps true of the page: the inspection date is empty or shaped like a `toISODate` result (`DateText`). */
  predicate Valid(s: State) {
    DateText(s.form.Get(InspectionDate))
  }

  /** `f` is the only field that may differ between `a` and `b`. */
  predicate SameExcept(a: Form, b: Form, f: Field) {
    forall g :: g != f ==> a.Get(g) == b.Get(g)
  }

  // ---------- stopDictation ----------

  /** `stopDictation`: the page leaves dictation; the form and the transcript stay. */
  function StopDictation(s: State): (r: State)
    ensures !r.listening && r.mode.None? && r.activeField.None?
    ensures r.form == s.form && r.transcript == s.transcript
  {
    s.(listening := false, mode := None, activeField := None)
  }

  /** Stopping twice is stopping once (the recogniser's `onend` calls it again). */
  lemma StopDictationIdempotent(s: State)
    ensures StopDictation(StopDictation(s)) == StopDictation(s)
  {
  }

  // ---------- applyToField / appendToField ----------

  /** The text `applyToField` stores in field `f`. */
  function AppliedValue(f: Field, value: string, clear: bool, env: Env): (v: string)
    ensures f == InspectionDate ==> DateText(v)
    ensures f == InspectionDate && IsIsoShape(value) ==> v == value
    ensures f == InspectionDate && value != "" ==> v == ToISODate(value, env)
    ensures f == InspectionDate && value == "" ==> v == ""
    ensures f != InspectionDate && clear ==> v == ""
    ensures f != InspectionDate && !clear ==> v == value
  {
    if f == InspectionDate then (if value == "" then "" else ToISODate(value, env))
    else if clear then ""
    else value
  }

  /**
   * `applyToField`: field `f` takes the value (the inspection date normalised
   * again, a cleared field empty) and becomes the active field.
   */
  function ApplyToField(s: State, f: Field, value: string, clear: bool, env: Env): (r: State)
    ensures r.form.Get(f) == AppliedValue(f, value, clear, env)
    ensures SameExcept(s.form, r.form, f)
    ensures r.activeField == Some(f)
    ensures r.listening == s.listening && r.mode == s.mode && r.transcript == s.transcript
  {
    s.(form := s.form.Set(f, AppliedValue(f, value, clear, env)), activeField := Some(f))
  }

  /** The text `appendToField` stores in field `f`. */
  function AppendedValue(prev: string, f: Field, extra: string, env: Env): (v: string)
    ensures f != InspectionDate ==> v == prev + (if |prev| > 0 then " " else "") + extra
    ensures f == InspectionDate ==> v == (if ToISODate(extra, env) != "" then ToISODate(extra, env) else prev)
  {
    if f == InspectionDate then
      var iso := ToISODate(extra, env);
      if iso != "" then iso else prev
    else
      prev + (if |prev| > 0 then " " else "") + extra
  }

  /**
   * `appendToField`: a text field gains `extra` after one separating space
   * (none when it was empty); the inspection date is replaced only by a date
   * that normalises. The active field does not change.
   */
  function AppendToField(s: State, f: Field, extra: string, env: Env): (r: State)
    ensures r.form.Get(f) == AppendedValue(s.form.Get(f), f, extra, env)
    ensures SameExcept(s.form, r.form, f)
    ensures r.activeField == s.activeField
    ensures r.listening == s.listening && r.mode == s.mode && r.transcript == s.transcript
    ensures Valid(s) ==> Valid(r)
  {
    s.(form := s.form.Set(f, AppendedValue(s.form.Get(f), f, extra, env)))
  }

  // ---------- handleSpeechChunk ----------

  /** `"set <field> to <value>"`: the value after `cleanTail`; a date that does not normalise changes nothing. */
  function SetCommand(s: State, m: SetMatch, env: Env): (r: State)
    requires FieldFromSpoken(m.word).Some?
    ensures var f := FieldFromSpoken(m.word).value;
      f != InspectionDate ==> r.form.Get(f) == CleanTail(m.value) && r.activeField == Some(f)
    ensures var f := FieldFromSpoken(m.word).value;
      var iso := ToISODate(CleanTail(m.value), env);
      f == InspectionDate && iso != "" ==>
        r.form.Get(f) == AppliedValue(f, iso, false, env) && r.activeField == Some(f)
    ensures var f := FieldFromSpoken(m.word).value;
      f == InspectionDate && ToISODate(CleanTail(m.value), env) == "" ==> r == s
  {
    var f := FieldFromSpoken(m.word).value;
    var val := CleanTail(m.value);
    if f == InspectionDate then
      var iso := ToISODate(val, env);
      if iso != "" then ApplyToField(s, f, iso, false, env) else s
    else ApplyToField(s, f, val, false, env)
  }

  /**
   * Free speech for the field the handler sees as active: appended to a text
   * field; the inspection date is replaced by a date that normalises and
   * kept otherwise.
   */
  function Content(s: State, f: Field, t: string, env: Env): (r: State)
    ensures f != InspectionDate ==>
      r.form.Get(f) == s.form.Get(f) + (if |s.form.Get(f)| > 0 then " " else "") + t
      && r.activeField == s.activeField
    ensures f == InspectionDate && ToISODate(t, env) != "" ==>
      r.form.Get(f) == AppliedValue(f, ToISODate(t, env), false, env) && r.activeField == Some(f)
    ensures f == InspectionDate && ToISODate(t, env) == "" ==> r == s
  {
    if f == InspectionDate then
      var iso := ToISODate(t, env);
      if iso != "" then ApplyToField(s, f, iso, false, env) else s
    else AppendToField(s, f, t, env)
  }

  /** The field named by group 2 of the focus pattern, when it names one. */
  function FocusField(t: string): Option<Field>
    requires IsTrimmed(t)
  {
    var m := MatchFocus(t);
    if m.Some? then FieldFromSpoken(m.value) else None
  }

  /** The field named by group 1 of the clear pattern, when it names one. */
  function ClearField(t: string): Option<Field>
    requires IsTrimmed(t)
  {
    var m := MatchClear(t);
    if m.Some? then FieldFromSpoken(m.value) else None
  }

  /**
   * The global-mode grammar, tried in order: focus, clear, set, then content
   * for the field `seen`. The first pattern that names a field wins.
   */
  function GlobalCommand(s: State, t: string, seen: Option<Field>, env: Env): (r: State)
    requires IsTrimmed(t)
    ensures FocusField(t).Some? ==> r == s.(activeField := FocusField(t))
    ensures FocusField(t).None? && ClearField(t).Some? ==>
      r.form.Get(ClearField(t).value) == "" && SameExcept(s.form, r.form, ClearField(t).value)
      && r.activeField == ClearField(t)
    ensures FocusField(t).None? && ClearField(t).None? && MatchSet(t).Some? ==>
      SameExcept(s.form, r.form, FieldFromSpoken(MatchSet(t).value.word).value)
    ensures FocusField(t).None? && ClearField(t).None? && MatchSet(t).None? && seen.Some? ==>
      SameExcept(s.form, r.form, seen.value)
    ensures FocusField(t).None? && ClearField(t).None? && MatchSet(t).None? && seen.None? ==> r == s
  {
    if FocusField(t).Some? then s.(activeField := FocusField(t))
    else if ClearField(t).Some? then ApplyToField(s, ClearField(t).value, "", true, env)
    else if MatchSet(t).Some? then SetCommand(s, MatchSet(t).value, env)
    else if seen.Some? then Content(s, seen.value, t, env)
    else s
  }

  /**
   * `handleSpeechChunk(text, m, field)`. Control words come first, in either
   * mode; a per-field session then writes every other chunk to its field;
   * otherwise the global grammar applies. `seen` is the active field the
   * handler reads in its last branch. The control word, if any, is returned
   * for the effects outside the page state (save, export, navigating back).
   */
  function HandleSpeechChunk(s: State, text: string, m: Mode, field: Option<Field>, seen: Option<Field>, env: Env): (r: (State, Option<Control>))
    ensures r.1 == ControlWord(Trim(text))
    ensures r.1.Some? ==> r.0.form == s.form
    ensures r.1 == Some(StopWord) ==> r.0 == StopDictation(s)
    ensures r.1 != Some(StopWord) ==> r.0.listening == s.listening && r.0.mode == s.mode
    ensures r.0.transcript == s.transcript
    ensures exists f :: SameExcept(s.form, r.0.form, f)
    ensures Valid(s) ==> Valid(r.0)
  {
    var t := Trim(text);
    var c := ControlWord(t);
    var r := if c == Some(StopWord) then (StopDictation(s), c)
      else if c.Some? then (s, c)
      else (CommandStep(s, t, m, field, seen, env), None);
    StepChangesOneField(s, t, m, field, seen, env);
    r
  }

  /** The state part of a step without a control word, as `HandleSpeechChunk` computes it. */
  function CommandStep(s: State, t: string, m: Mode, field: Option<Field>, seen: Option<Field>, env: Env): State
    requires IsTrimmed(t)
  {
    if m == PerField && field.Some? then ApplyToField(s, field.value, t, false, env)
    else GlobalCommand(s, t, seen, env)
  }

  lemma ContentChangesOneField(s: State, f: Field, t: string, env: Env)
    ensures SameExcept(s.form, Content(s, f, t, env).form, f)
    ensures Valid(s) ==> Valid(Content(s, f, t, env))
    ensures Content(s, f, t, env).listening == s.listening && Content(s, f, t, env).mode == s.mode
    ensures Content(s, f, t, env).transcript == s.transcript
  {
    if f == InspectionDate {
      var iso := ToISODate(t, env);
      if iso != "" { assert Content(s, f, t, env) == ApplyToField(s, f, iso, false, env); }
      else { assert Content(s, f, t, env) == s; }
    } else {
      assert Content(s, f, t, env) == AppendToField(s, f, t, env);
    }
  }

  lemma SetChangesOneField(s: State, m: SetMatch, env: Env)
    requires FieldFromSpoken(m.word).Some?
    ensures SameExcept(s.form, SetCommand(s, m, env).form, FieldFromSpoken(m.word).value)
    ensures Valid(s) ==> Valid(SetCommand(s, m, env))
    ensures SetCommand(s, m, env).listening == s.listening && SetCommand(s, m, env).mode == s.mode
    ensures SetCommand(s, m, env).transcript == s.transcript
  {
    var f, val := FieldFromSpoken(m.word).value, CleanTail(m.value);
    if f == InspectionDate {
      var iso := ToISODate(val, env);
      if iso != "" { assert SetCommand(s, m, env) == ApplyToField(s, f, iso, false, env); }
      else { assert SetCommand(s, m, env) == s; }
    } else {
      assert SetCommand(s, m, env) == ApplyToField(s, f, val, false, env);
    }
  }

  /** Every step without a control word writes at most one field and keeps the date well formed. */
  lemma StepChangesOneField(s: State, t: string, m: Mode, field: Option<Field>, seen: Option<Field>, env: Env)
    requires IsTrimmed(t)
    ensures exists f :: SameExcept(s.form, CommandStep(s, t, m, field, seen, env).form, f)
    ensures exists f :: SameExcept(s.form, StopDictation(s).form, f)
    ensures Valid(s) ==> Valid(CommandStep(s, t, m, field, seen, env))
    ensures CommandStep(s, t, m, field, seen, env).listening == s.listening
    ensures CommandStep(s, t, m, field, seen, env).mode == s.mode
    ensures CommandStep(s, t, m, field, seen, env).transcript == s.transcript
  {
    assert SameExcept(s.form, StopDictation(s).form, Name);
    var r := CommandStep(s, t, m, field, seen, env);
    if m == PerField && field.Some? {
      assert SameExcept(s.form, r.form, field.value);
    } else if FocusField(t).Some? {
      assert SameExcept(s.form, r.form, Name);
    } else if ClearField(t).Some? {
      assert SameExcept(s.form, r.form, ClearField(t).value);
    } else if MatchSet(t).Some? {
      SetChangesOneField(s, MatchSet(t).value, env);
      assert SameExcept(s.form, r.form, FieldFromSpoken(MatchSet(t).value.word).value);
    } else if seen.Some? {
      ContentChangesOneField(s, seen.value, t, env);
      assert SameExcept(s.form, r.form, seen.value);
    } else {
      assert SameExcept(s.form, r.form, Name);
    }
  }

  // ---------- what each branch of handleSpeechChunk does ----------

  /** No control word, and the chunk goes to the global grammar. */
  predicate GlobalChunk(t: string, m: Mode, field: Option<Field>) {
    ControlWord(t).None? && !(m == PerField && field.Some?)
  }

  /** A control word changes no field; only the stop words leave dictation. */
  lemma ControlWordKeepsForm(s: State, text: string, m: Mode, field: Option<Field>, seen: Option<Field>, env: Env)
    requires ControlWord(Trim(text)).Some?
    ensures HandleSpeechChunk(s, text, m, field, seen, env).0.form == s.form
    ensures ControlWord(Trim(text)) != Some(StopWord) ==> HandleSpeechChunk(s, text, m, field, seen, env).0 == s
  {
  }

  /** A per-field session replaces its field with each chunk (normalised for the date), never appends. */
  lemma PerFieldReplaces(s: State, text: string, f: Field, seen: Option<Field>, env: Env)
    requires ControlWord(Trim(text)).None?
    ensures var r := HandleSpeechChunk(s, text, PerField, Some(f), seen, env).0;
      r.form.Get(f) == AppliedValue(f, Trim(text), false, env)
      && SameExcept(s.form, r.form, f) && r.activeField == Some(f)
  {
  }

  /** "enter text for <field>" only moves the active field. */
  lemma FocusMovesActiveField(s: State, text: string, m: Mode, field: Option<Field>, seen: Option<Field>, env: Env)
    requires GlobalChunk(Trim(text), m, field) && FocusField(Trim(text)).Some?
    ensures HandleSpeechChunk(s, text, m, field, seen, env).0 == s.(activeField := FocusField(Trim(text)))
  {
  }

  /** "clear <field>" empties that field, the inspection date included, and makes it active. */
  lemma ClearEmptiesField(s: State, text: string, m: Mode, field: Option<Field>, seen: Option<Field>, env: Env)
    requires var t := Trim(text);
      GlobalChunk(t, m, field) && FocusField(t).None? && ClearField(t).Some?
    ensures var r := HandleSpeechChunk(s, text, m, field, seen, env).0;
      var f := ClearField(Trim(text)).value;
      r.form == s.form.Set(f, "") && r.activeField == Some(f)
  {
    var f := ClearField(Trim(text)).value;
    var r := HandleSpeechChunk(s, text, m, field, seen, env).0;
    FormExtensionality(r.form, s.form.Set(f, ""));
  }

  /**
   * "<field> is <value>" and "set <field> to <value>": a text field takes the
   * value after `cleanTail`; the inspection date takes it only when it
   * normalises, and the chunk is used up either way.
   */
  lemma SetAssignsField(s: State, text: string, m: Mode, field: Option<Field>, seen: Option<Field>, env: Env)
    requires var t := Trim(text);
      GlobalChunk(t, m, field) && FocusField(t).None? && ClearField(t).None? && MatchSet(t).Some?
    ensures var sm := MatchSet(Trim(text)).value;
      var f := FieldFromSpoken(sm.word).value;
      var val := CleanTail(sm.value);
      var r := HandleSpeechChunk(s, text, m, field, seen, env).0;
      && (f != InspectionDate ==> r.form == s.form.Set(f, val) && r.activeField == Some(f))
      && (f == InspectionDate && ToISODate(val, env) == "" ==> r == s)
      && (f == InspectionDate && ToISODate(val, env) != "" ==>
            r.form == s.form.Set(f, AppliedValue(f, ToISODate(val, env), false, env)) && r.activeField == Some(f))
      && (f == InspectionDate && IsIsoShape(ToISODate(val, env)) ==>
            r.form == s.form.Set(f, ToISODate(val, env)) && r.activeField == Some(f))
  {
    var sm := MatchSet(Trim(text)).value;
    var f := FieldFromSpoken(sm.word).value;
    var val := CleanTail(sm.value);
    var r := HandleSpeechChunk(s, text, m, field, seen, env).0;
    if f != InspectionDate {
      FormExtensionality(r.form, s.form.Set(f, val));
    } else if ToISODate(val, env) != "" {
      FormExtensionality(r.form, s.form.Set(f, AppliedValue(f, ToISODate(val, env), false, env)));
    }
  }

  /** Speech that is no command: content for the field the handler sees, or nothing without one. */
  predicate PlainSpeech(t: string, m: Mode, field: Option<Field>)
    requires IsTrimmed(t)
  {
    GlobalChunk(t, m, field) && FocusField(t).None? && ClearField(t).None? && MatchSet(t).None?
  }

  /** Plain speech is appended to the text field the handler sees as active, after one space. */
  lemma PlainSpeechAppends(s: State, text: string, m: Mode, field: Option<Field>, f: Field, env: Env)
    requires PlainSpeech(Trim(text), m, field)
    requires f != InspectionDate
    ensures var r := HandleSpeechChunk(s, text, m, field, Some(f), env).0;
      var prev := s.form.Get(f);
      r.form == s.form.Set(f, prev + (if |prev| > 0 then " " else "") + Trim(text))
      && r.activeField == s.activeField
  {
    var r := HandleSpeechChunk(s, text, m, field, Some(f), env).0;
    var prev := s.form.Get(f);
    FormExtensionality(r.form, s.form.Set(f, prev + (if |prev| > 0 then " " else "") + Trim(text)));
  }

  /**
   * Plain speech while the handler sees the inspection date as active: a
   * date that normalises replaces it and keeps it active; anything else
   * changes nothing.
   */
  lemma PlainSpeechSetsDate(s: State, text: string, m: Mode, field: Option<Field>, env: Env)
    requires PlainSpeech(Trim(text), m, field)
    ensures var r := HandleSpeechChunk(s, text, m, field, Some(InspectionDate), env).0;
      var iso := ToISODate(Trim(text), env);
      && (iso != "" ==> r.form == s.form.Set(InspectionDate, AppliedValue(InspectionDate, iso, false, env))
                        && r.activeField == Some(InspectionDate))
      && (iso == "" ==> r == s)
  {
    var r := HandleSpeechChunk(s, text, m, field, Some(InspectionDate), env).0;
    var iso := ToISODate(Trim(text), env);
    if iso != "" {
      FormExtensionality(r.form, s.form.Set(InspectionDate, AppliedValue(InspectionDate, iso, false, env)));
    }
  }

  /** Plain speech with no active field in view changes nothing. */
  lemma PlainSpeechWithoutFieldIgnored(s: State, text: string, m: Mode, field: Option<Field>, env: Env)
    requires PlainSpeech(Trim(text), m, field)
    ensures HandleSpeechChunk(s, text, m, field, None, env).0 == s
  {
  }

  // ---------- startRecognizer and recog.onresult ----------

  /** One entry of `ev.results`: its best transcript and whether it is final. */
  datatype SpeechResult = SpeechResult(transcript: string, isFinal: bool)

  /**
   * What the result handler of one recogniser closes over: the mode and field
   * `startRecognizer` was called with, the active field of the render that
   * called it, and the `finalText` it accumulates.
   */
  datatype Session = Session(mode: Mode, field: Option<Field>, captured: Option<Field>, finalText: string)

  /**
   * `startRecognizer(newMode, field)`: without a recogniser in the browser nothing
   * changes and no session starts; otherwise the transcript is cleared, the mode
   * and the active field are set and the page is listening.
   */
  function StartRecognizer(s: State, newMode: Mode, field: Option<Field>, supported: bool): (r: (State, Option<Session>))
    ensures !supported ==> r.0 == s && r.1.None?
    ensures supported ==> r.0.form == s.form && r.0.transcript == ""
    ensures supported ==> r.0.listening && r.0.mode == Some(newMode) && r.0.activeField == field
    ensures supported ==> r.1 == Some(Session(newMode, field, s.activeField, ""))
  {
    if !supported then (s, None)
    else (s.(transcript := "", mode := Some(newMode), activeField := field, listening := true),
          Some(Session(newMode, field, s.activeField, "")))
  }

  /** The results from `ev.resultIndex` on (none when the index is past the end). */
  function Pending(results: seq<SpeechResult>, from: nat): seq<SpeechResult> {
    if from <= |results| then results[from..] else []
  }

  /** The transcripts of the final results, in order. */
  function Finals(rs: seq<SpeechResult>): (chunks: seq<string>)
    ensures |chunks| <= |rs|
  {
    if rs == [] then []
    else Finals(rs[..|rs| - 1]) + (if rs[|rs| - 1].isFinal then [rs[|rs| - 1].transcript] else [])
  }

  /** `interim`: the transcripts of the results that are not final, joined. */
  function Interim(rs: seq<SpeechResult>): string {
    if rs == [] then ""
    else Interim(rs[..|rs| - 1]) + (if rs[|rs| - 1].isFinal then "" else rs[|rs| - 1].transcript)
  }

  /** What `finalText += chunk + " "` adds for a batch. */
  function FinalTextOf(rs: seq<SpeechResult>): string {
    if rs == [] then ""
    else FinalTextOf(rs[..|rs| - 1]) + (if rs[|rs| - 1].isFinal then rs[|rs| - 1].transcript + " " else "")
  }

  function ControlSeq(c: Option<Control>): seq<Control> {
    if c.Some? then [c.value] else []
  }

  /** The control words among `chunks`, in order: the reference for what a batch asks of the page. */
  function ControlsOf(chunks: seq<string>): seq<Control> {
    if chunks == [] then []
    else ControlsOf(chunks[..|chunks| - 1]) + ControlSeq(ControlWord(Trim(chunks[|chunks| - 1])))
  }

  /** One handler call on a trimmed final chunk: the new state and the control word, if any. */
  type Step = (State, string) -> (State, Option<Control>)

  /** The final chunks of a batch handled in order by `step`, each on the state the earlier ones left. */
  function Run(s: State, chunks: seq<string>, step: Step): (r: (State, seq<Control>))
    ensures |r.1| <= |chunks|
  {
    if chunks == [] then (s, [])
    else
      var prev := Run(s, chunks[..|chunks| - 1], step);
      var last := step(prev.0, chunks[|chunks| - 1]);
      (last.0, prev.1 + ControlSeq(last.1))
  }

  /** One more final chunk: `step` runs on the state the earlier chunks left. */
  lemma RunSnoc(s: State, chunks: seq<string>, c: string, step: Step)
    ensures var prev := Run(s, chunks, step);
      Run(s, chunks + [c], step) == (step(prev.0, c).0, prev.1 + ControlSeq(step(prev.0, c).1))
  {
    assert (chunks + [c])[..|chunks|] == chunks;
  }

  /** Two final chunks are two steps. */
  lemma RunTwo(s: State, a: string, b: string, step: Step)
    ensures Run(s, [a, b], step).0 == step(step(s, a).0, b).0
  {
    RunSnoc(s, [], a, step);
    assert [] + [a] == [a];
    RunSnoc(s, [a], b, step);
    assert [a] + [b] == [a, b];
  }

  /** What every handler call promises: the control word of its chunk, the transcript kept, `Valid` kept. */
  ghost predicate WellBehaved(step: Step) {
    forall p: State, c: string {:trigger step(p, c)} ::
      step(p, c).1 == ControlWord(Trim(c)) && step(p, c).0.transcript == p.transcript
      && (Valid(p) ==> Valid(step(p, c).0))
  }

  /** A batch reports the control words of its chunks in order, keeps the transcript and keeps `Valid`. */
  lemma {:induction false} RunKeeps(s: State, chunks: seq<string>, step: Step)
    requires WellBehaved(step)
    ensures Run(s, chunks, step).1 == ControlsOf(chunks)
    ensures Run(s, chunks, step).0.transcript == s.transcript
    ensures Valid(s) ==> Valid(Run(s, chunks, step).0)
  {
    if chunks != [] {
      var front := chunks[..|chunks| - 1];
      RunKeeps(s, front, step);
      var p := Run(s, front, step).0;
      assert step(p, chunks[|chunks| - 1]).1 == ControlWord(Trim(chunks[|chunks| - 1]));
    }
  }

  /** The handler as the comments at lines 209 and 238 describe it: the active field is read from the latest state. */
  function LiveStep(m: Mode, field: Option<Field>, env: Env): Step {
    (p: State, c: string) => HandleSpeechChunk(p, Trim(c), m, field, p.activeField, env)
  }

  /** The handler as written: every call reads the active field captured when the session started. */
  function CapturedStep(m: Mode, field: Option<Field>, captured: Option<Field>, env: Env): Step {
    (p: State, c: string) => HandleSpeechChunk(p, Trim(c), m, field, captured, env)
  }

  /** Both readings of the handler are well behaved. */
  lemma StepsWellBehaved(m: Mode, field: Option<Field>, captured: Option<Field>, env: Env)
    ensures WellBehaved(LiveStep(m, field, env))
    ensures WellBehaved(CapturedStep(m, field, captured, env))
  {
    var live, stale := LiveStep(m, field, env), CapturedStep(m, field, captured, env);
    forall p: State, c: string ensures
      live(p, c).1 == ControlWord(Trim(c)) && live(p, c).0.transcript == p.transcript
      && (Valid(p) ==> Valid(live(p, c).0))
    {
      ChunkWellBehaved(p, c, m, field, p.activeField, env);
    }
    forall p: State, c: string ensures
      stale(p, c).1 == ControlWord(Trim(c)) && stale(p, c).0.transcript == p.transcript
      && (Valid(p) ==> Valid(stale(p, c).0))
    {
      ChunkWellBehaved(p, c, m, field, captured, env);
    }
  }

  /** A chunk the result handler trims before the call is not changed by the handler's own `trim`. */
  lemma ChunkWellBehaved(p: State, c: string, m: Mode, field: Option<Field>, seen: Option<Field>, env: Env)
    ensures var r := HandleSpeechChunk(p, Trim(c), m, field, seen, env);
      r.1 == ControlWord(Trim(c)) && r.0.transcript == p.transcript && (Valid(p) ==> Valid(r.0))
  {
    TrimTrimmed(Trim(c));
  }

  /** The final chunks of a batch handled in order, each handler reading the latest active field. */
  function Dispatch(s: State, chunks: seq<string>, m: Mode, field: Option<Field>, env: Env): (r: (State, seq<Control>))
    ensures r.1 == ControlsOf(chunks)
    ensures Valid(s) ==> Valid(r.0)
    ensures r.0.transcript == s.transcript
  {
    StepsWellBehaved(m, field, None, env);
    RunKeeps(s, chunks, LiveStep(m, field, env));
    Run(s, chunks, LiveStep(m, field, env))
  }

  /** The same loop as written: every handler of the session reads the captured active field. */
  function DispatchAsWritten(s: State, chunks: seq<string>, m: Mode, field: Option<Field>, captured: Option<Field>, env: Env): (r: (State, seq<Control>))
    ensures r.1 == ControlsOf(chunks)
    ensures Valid(s) ==> Valid(r.0)
    ensures r.0.transcript == s.transcript
  {
    StepsWellBehaved(m, field, captured, env);
    RunKeeps(s, chunks, CapturedStep(m, field, captured, env));
    Run(s, chunks, CapturedStep(m, field, captured, env))
  }

  /** One more final chunk of a batch: the handler runs on the state the earlier chunks left. */
  lemma DispatchSnoc(s: State, chunks: seq<string>, c: string, m: Mode, field: Option<Field>, env: Env, p: State, cs: seq<Control>)
    requires Dispatch(s, chunks, m, field, env) == (p, cs)
    ensures var r := HandleSpeechChunk(p, Trim(c), m, field, p.activeField, env);
      Dispatch(s, chunks + [c], m, field, env) == (r.0, cs + ControlSeq(r.1))
  {
    RunSnoc(s, chunks, c, LiveStep(m, field, env));
  }

  /** One more result: a final one adds its transcript to the chunks and to the final text, an interim one to the interim text. */
  lemma FinalsSnoc(rs: seq<SpeechResult>, j: nat)
    requires j < |rs|
    ensures rs[j].isFinal ==> Finals(rs[..j + 1]) == Finals(rs[..j]) + [rs[j].transcript]
    ensures rs[j].isFinal ==> FinalTextOf(rs[..j + 1]) == FinalTextOf(rs[..j]) + (rs[j].transcript + " ")
    ensures rs[j].isFinal ==> Interim(rs[..j + 1]) == Interim(rs[..j])
    ensures !rs[j].isFinal ==> Finals(rs[..j + 1]) == Finals(rs[..j])
    ensures !rs[j].isFinal ==> FinalTextOf(rs[..j + 1]) == FinalTextOf(rs[..j])
    ensures !rs[j].isFinal ==> Interim(rs[..j + 1]) == Interim(rs[..j]) + rs[j].transcript
  {
    assert rs[..j + 1][..j] == rs[..j];
    assert Finals(rs[..j]) + [] == Finals(rs[..j]);
    assert FinalTextOf(rs[..j]) + "" == FinalTextOf(rs[..j]);
    assert Interim(rs[..j]) + "" == Interim(rs[..j]);
  }

  /** The page state, session and control words once the final chunks of `rs` have been handled with outcome `d`. */
  function Settle(d: (State, seq<Control>), sess: Session, rs: seq<SpeechResult>): (State, Session, seq<Control>) {
    var finalText := sess.finalText + FinalTextOf(rs);
    (d.0.(transcript := Trim(finalText + " " + Interim(rs))), sess.(finalText := finalText), d.1)
  }

  /**
   * `recog.onresult`, corrected: the final results from `resultIndex` on are
   * handled in order, each reading the latest active field, and added to
   * `finalText`; the transcript shows the final text and the interim text.
   * Returns the new page state, the session and the control words.
   */
  function OnResult(s: State, sess: Session, results: seq<SpeechResult>, from: nat, env: Env): (r: (State, Session, seq<Control>))
    ensures r.0 == Dispatch(s, Finals(Pending(results, from)), sess.mode, sess.field, env).0.(transcript := r.0.transcript)
    ensures r.1 == sess.(finalText := sess.finalText + FinalTextOf(Pending(results, from)))
    ensures r.0.transcript == Trim(r.1.finalText + " " + Interim(Pending(results, from)))
    ensures r.2 == ControlsOf(Finals(Pending(results, from)))
    ensures Valid(s) ==> Valid(r.0)
  {
    var rs := Pending(results, from);
    Settle(Dispatch(s, Finals(rs), sess.mode, sess.field, env), sess, rs)
  }

  /** `recog.onresult` as written: every chunk of the session reads the active field captured when it started. */
  function OnResultAsWritten(s: State, sess: Session, results: seq<SpeechResult>, from: nat, env: Env): (r: (State, Session, seq<Control>))
    ensures r.0 == DispatchAsWritten(s, Finals(Pending(results, from)), sess.mode, sess.field, sess.captured, env).0.(transcript := r.0.transcript)
    ensures r.1 == sess.(finalText := sess.finalText + FinalTextOf(Pending(results, from)))
    ensures r.0.transcript == Trim(r.1.finalText + " " + Interim(Pending(results, from)))
    ensures r.2 == ControlsOf(Finals(Pending(results, from)))
    ensures Valid(s) ==> Valid(r.0)
  {
    var rs := Pending(results, from);
    Settle(DispatchAsWritten(s, Finals(rs), sess.mode, sess.field, sess.captured, env), sess, rs)
  }

  // ---------- the stale active field ----------

  /** The focus chunk moves the active field and nothing else, whichever active field the handler reads. */
  lemma FocusFirst(s: State, focus: string, seen: Option<Field>, f: Field, env: Env)
    requires GlobalChunk(Trim(focus), Global, None) && FocusField(Trim(focus)) == Some(f)
    ensures HandleSpeechChunk(s, Trim(focus), Global, None, seen, env).0 == s.(activeField := Some(f))
  {
    TrimTrimmed(Trim(focus));
    FocusMovesActiveField(s, Trim(focus), Global, None, seen, env);
  }

  /** Plain words read with no active field change nothing. */
  lemma PlainIgnored(s1: State, words: string, env: Env)
    requires PlainSpeech(Trim(words), Global, None)
    ensures HandleSpeechChunk(s1, Trim(words), Global, None, None, env).0 == s1
  {
    TrimTrimmed(Trim(words));
    PlainSpeechWithoutFieldIgnored(s1, Trim(words), Global, None, env);
  }

  /** Plain words read with active field `f` are appended to it. */
  lemma PlainAppends(s1: State, words: string, f: Field, env: Env)
    requires PlainSpeech(Trim(words), Global, None)
    requires f != InspectionDate
    ensures var prev := s1.form.Get(f);
      HandleSpeechChunk(s1, Trim(words), Global, None, Some(f), env).0.form
        == s1.form.Set(f, prev + (if |prev| > 0 then " " else "") + Trim(words))
  {
    TrimTrimmed(Trim(words));
    PlainSpeechAppends(s1, Trim(words), Global, None, f, env);
  }

  /**
   * As written: a session started with no active field drops the words that
   * follow "enter text for <field>": the focus moves, but the handler still
   * sees no active field.
   */
  lemma StaleFocusDropsContent(s: State, focus: string, words: string, f: Field, env: Env)
    requires GlobalChunk(Trim(focus), Global, None) && FocusField(Trim(focus)) == Some(f)
    requires PlainSpeech(Trim(words), Global, None)
    ensures DispatchAsWritten(s, [focus, words], Global, None, None, env).0.form == s.form
  {
    var step := CapturedStep(Global, None, None, env);
    RunTwo(s, focus, words, step);
    FocusFirst(s, focus, None, f, env);
    PlainIgnored(s.(activeField := Some(f)), words, env);
  }

  /**
   * Corrected: after "enter text for <field>", the words that follow are
   * appended to that field.
   */
  lemma FocusThenContentAppends(s: State, focus: string, words: string, f: Field, env: Env)
    requires GlobalChunk(Trim(focus), Global, None) && FocusField(Trim(focus)) == Some(f)
    requires PlainSpeech(Trim(words), Global, None)
    requires f != InspectionDate
    ensures var prev := s.form.Get(f);
      Dispatch(s, [focus, words], Global, None, env).0.form
        == s.form.Set(f, prev + (if |prev| > 0 then " " else "") + Trim(words))
  {
    var step := LiveStep(Global, None, env);
    RunTwo(s, focus, words, step);
    FocusFirst(s, focus, s.activeField, f, env);
    PlainAppends(s.(activeField := Some(f)), words, f, env);
  }

  /** The word `name` names the name field. */
  lemma NameNamesName()
    ensures FieldFromSpoken("name") == Some(Name)
  {
    LowerKeeps("name");
    assert Contains("name", "name");
  }

  /** `enter text for name` is a focus command for the name field. */
  lemma EnterTextForName()
    ensures Trim("enter text for name") == "enter text for name"
    ensures GlobalChunk("enter text for name", Global, None)
    ensures FocusField("enter text for name") == Some(Name)
  {
    var t := "enter text for name";
    assert |t| == 19 && t[0] == 'e' && t[18] == 'e';
    TrimTrimmed(t);
    EnterTextForNameTarget();
    NameNamesName();
  }

  lemma EnterTextForNameTarget()
    ensures IsTrimmed("enter text for name") && MatchFocus("enter text for name") == Some("name")
  {
    assert "enter text for name" == "enter" + " " + "text for " + "name";
    MatchFocusTextFor(0, "enter", " ", "name");
  }

  /** `John` is no command. */
  lemma JohnIsPlain()
    ensures Trim("John") == "John"
    ensures PlainSpeech("John", Global, None)
  {
    JohnIsNoCommand();
    TrimTrimmed("John");
    JohnIsNoControlWord();
  }

  lemma JohnIsNoControlWord()
    ensures ControlWord("John").None?
  {
    CiAtDiffersAt("John", 0, "stop", 0);
    CiAtDiffersAt("John", 0, "done", 0);
    CiAtDiffersAt("John", 0, "save", 0);
  }

  lemma JohnIsNoCommand()
    ensures IsTrimmed("John")
    ensures FocusField("John").None? && ClearField("John").None? && MatchSet("John").None?
  {
    var t := "John";
    assert t[0] == 'J' && t[3] == 'n' && FoldChar(t[0]) == 'j';
    CiAtDiffersAt(t, 0, "clear", 0);
    NoFocusVerb(t);
    NoSetWord(t);
  }

  /** As written: `enter text for name` then `John`, in one session begun with no active field, leave the form as it was. */
  lemma EnterTextForNameThenJohnAsWritten(s: State, env: Env)
    ensures DispatchAsWritten(s, ["enter text for name", "John"], Global, None, None, env).0.form == s.form
  {
    EnterTextForName();
    JohnIsPlain();
    StaleFocusDropsContent(s, "enter text for name", "John", Name, env);
  }

  /** Corrected: the same two chunks append `John` to the name. */
  lemma EnterTextForNameThenJohn(s: State, env: Env)
    ensures var prev := s.form.Get(Name);
      Dispatch(s, ["enter text for name", "John"], Global, None, env).0.form
        == s.form.Set(Name, prev + (if |prev| > 0 then " " else "") + "John")
  {
    EnterTextForName();
    JohnIsPlain();
    FocusThenContentAppends(s, "enter text for name", "John", Name, env);
  }
}
