/**
 * The item-creation page as an object: the five pieces of React state are
 * fields that the handlers update in place, and the recogniser's result
 * handler is a loop over the results of one event. Every method is proved to
 * leave the page in the state the functions of `Interpreter` describe.
 *
 * The result handler here reads the active field from the page as it is when
 * each chunk is handled (the corrected reading, `Interpreter.Dispatch`).
 */
module Dictation {
  import opened Wrappers
  import opened Text
  import opened IsoDate
  import opened ItemForm
  import opened Grammar
  import opened Interpreter

  class CreateItemPage {
    var form: Form
    var activeField: Option<Field>
    var listening: bool
    var mode: Option<Mode>
    var transcript: string
    /** The recogniser last started and what its result handler closes over. */
    var session: Option<Session>

    /** The page state the interpreter functions speak about. */
    function Snapshot(): State
      reads this
    {
      State(form, activeField, listening, mode, transcript)
    }

    /** The inspection date is empty, or ten characters shaped like the output of `toISODate` (`YYYY-MM-DD`, or starting with `+` or `-`); every method of the page keeps it. */
    predicate Valid()
      reads this
    {
      Interpreter.Valid(Snapshot())
    }

    constructor()
      ensures Snapshot() == InitialState && session.None?
      ensures Valid()
    {
      form := InitialForm;
      activeField := None;
      listening := false;
      mode := None;
      transcript := "";
      session := None;
    }

    /** `stopDictation` */
    method StopDictation()
      requires Valid()
      modifies this
      ensures Valid()
      ensures Snapshot() == Interpreter.StopDictation(old(Snapshot()))
      ensures session == old(session)
    {
      listening := false;
      mode := None;
      activeField := None;
    }

    /** `applyToField(f, value, clear)` */
    method ApplyToField(f: Field, value: string, clear: bool, env: Env)
      requires Valid()
      modifies this
      ensures Valid()
      ensures Snapshot() == Interpreter.ApplyToField(old(Snapshot()), f, value, clear, env)
      ensures session == old(session)
    {
      if f == InspectionDate {
        var iso := if value != "" then ToISODate(value, env) else "";
        form := form.(inspectionDate := iso);
      } else {
        form := form.Set(f, if clear then "" else value);
      }
      activeField := Some(f);
    }

    /** `appendToField(f, extra)` */
    method AppendToField(f: Field, extra: string, env: Env)
      requires Valid()
      modifies this
      ensures Valid()
      ensures Snapshot() == Interpreter.AppendToField(old(Snapshot()), f, extra, env)
      ensures session == old(session)
    {
      ghost var s0 := Snapshot();
      var prev := form.Get(f);
      var v;
      if f == InspectionDate {
        var iso := ToISODate(extra, env);
        v := if iso != "" then iso else prev;
      } else {
        var sep := if |prev| > 0 then " " else "";
        v := prev + sep + extra;
      }
      assert v == AppendedValue(prev, f, extra, env);
      form := form.Set(f, v);
      assert Snapshot() == s0.(form := s0.form.Set(f, v));
      assert Snapshot() == Interpreter.AppendToField(s0, f, extra, env);
    }

    /**
     * `handleSpeechChunk(text, m, field)`, reading the active field of the page
     * as it is now. Returns the control word it obeyed, if any.
     */
    method HandleSpeechChunk(text: string, m: Mode, field: Option<Field>, env: Env) returns (c: Option<Control>)
      requires Valid()
      modifies this
      ensures Valid()
      ensures (Snapshot(), c) == Interpreter.HandleSpeechChunk(old(Snapshot()), text, m, field, old(activeField), env)
      ensures session == old(session)
    {
      var t := Trim(text);
      c := ControlWord(t);
      if c == Some(StopWord) {
        StopDictation();
        return;
      }
      if c.Some? {
        return;
      }
      if m == PerField && field.Some? {
        ApplyToField(field.value, t, false, env);
        return;
      }
      GlobalCommand(t, env);
    }

    /**
     * The global grammar of `handleSpeechChunk` for a trimmed chunk without a
     * control word: focus, clear, set, and then free speech for the active field.
     */
    method GlobalCommand(t: string, env: Env)
      requires IsTrimmed(t)
      requires Valid()
      modifies this
      ensures Valid()
      ensures Snapshot() == Interpreter.GlobalCommand(old(Snapshot()), t, old(activeField), env)
      ensures session == old(session)
    {
      var focus := FocusField(t);
      if focus.Some? {
        activeField := focus;
        return;
      }
      var cleared := ClearField(t);
      if cleared.Some? {
        ApplyToField(cleared.value, "", true, env);
        return;
      }
      var assignment := MatchSet(t);
      if assignment.Some? {
        var f := FieldFromSpoken(assignment.value.word).value;
        var val := CleanTail(assignment.value.value);
        if f == InspectionDate {
          var iso := ToISODate(val, env);
          if iso != "" {
            ApplyToField(f, iso, false, env);
          }
        } else {
          ApplyToField(f, val, false, env);
        }
        return;
      }
      if activeField.Some? {
        var f := activeField.value;
        if f == InspectionDate {
          var iso := ToISODate(t, env);
          if iso != "" {
            ApplyToField(f, iso, false, env);
          }
        } else {
          AppendToField(f, t, env);
        }
      }
    }

    /** `startRecognizer(newMode, field)`; `supported` says whether the browser has a recogniser. */
    method StartRecognizer(newMode: Mode, field: Option<Field>, supported: bool)
      requires Valid()
      modifies this
      ensures Valid()
      ensures var r := Interpreter.StartRecognizer(old(Snapshot()), newMode, field, supported);
        Snapshot() == r.0 && session == (if supported then r.1 else old(session))
    {
      if !supported {
        return;
      }
      session := Some(Session(newMode, field, activeField, ""));
      transcript := "";
      mode := Some(newMode);
      activeField := field;
      listening := true;
    }

    /** `startFieldDictation(field)` */
    method StartFieldDictation(field: Field, supported: bool)
      requires Valid()
      modifies this
      ensures Valid()
      ensures var r := Interpreter.StartRecognizer(old(Snapshot()), PerField, Some(field), supported);
        Snapshot() == r.0 && session == (if supported then r.1 else old(session))
    {
      StartRecognizer(PerField, Some(field), supported);
    }

    /** `startGlobalDictation` */
    method StartGlobalDictation(supported: bool)
      requires Valid()
      modifies this
      ensures Valid()
      ensures var r := Interpreter.StartRecognizer(old(Snapshot()), Global, None, supported);
        Snapshot() == r.0 && session == (if supported then r.1 else old(session))
    {
      StartRecognizer(Global, None, supported);
    }

    /** One final chunk of a batch, trimmed and handled by the page: the step `step` describes. */
    method HandleFinalChunk(chunk: string, m: Mode, field: Option<Field>, env: Env, ghost step: Step)
      returns (c: Option<Control>)
      requires step == LiveStep(m, field, env)
      requires Valid()
      modifies this
      ensures Valid()
      ensures (Snapshot(), c) == step(old(Snapshot()), chunk)
      ensures session == old(session)
    {
      c := HandleSpeechChunk(Trim(chunk), m, field, env);
    }

    /**
     * The loop of `recog.onresult`: every result of `rs` in order, a final one
     * added to the final text and handled, any other one added to the interim
     * text.
     */
    method HandleResults(rs: seq<SpeechResult>, m: Mode, field: Option<Field>, finalText0: string, env: Env, ghost step: Step)
      returns (controls: seq<Control>, finalText: string, interim: string)
      requires step == LiveStep(m, field, env)
      requires Valid()
      modifies this
      ensures Valid()
      ensures (Snapshot(), controls) == Run(old(Snapshot()), Finals(rs), step)
      ensures finalText == finalText0 + FinalTextOf(rs)
      ensures interim == Interim(rs)
      ensures session == old(session)
    {
      ghost var s0 := Snapshot();
      finalText := finalText0;
      interim := "";
      controls := [];
      var j := 0;
      assert rs[..0] == [];
      while j < |rs|
        invariant 0 <= j <= |rs|
        invariant finalText == finalText0 + FinalTextOf(rs[..j])
        invariant interim == Interim(rs[..j])
        invariant (Snapshot(), controls) == Run(s0, Finals(rs[..j]), step)
        invariant Valid()
        invariant session == old(session)
      {
        FinalsSnoc(rs, j);
        var chunk := rs[j].transcript;
        if rs[j].isFinal {
          AppendAssoc(finalText0, FinalTextOf(rs[..j]), chunk + " ");
          finalText := finalText + (chunk + " ");
          assert finalText == finalText0 + FinalTextOf(rs[..j + 1]) && interim == Interim(rs[..j + 1]);
          RunSnoc(s0, Finals(rs[..j]), chunk, step);
          var c := HandleFinalChunk(chunk, m, field, env, step);
          controls := controls + ControlSeq(c);
        } else {
          interim := interim + chunk;
          assert finalText == finalText0 + FinalTextOf(rs[..j + 1]) && interim == Interim(rs[..j + 1]);
        }
        j := j + 1;
      }
      assert rs[..j] == rs;
    }

    /**
     * `recog.onresult` for one event: the results from `from` on are handled and
     * the transcript shows the final text and the interim text. Returns the
     * control words the handler obeyed.
     */
    method OnResult(results: seq<SpeechResult>, from: nat, env: Env) returns (controls: seq<Control>)
      requires session.Some?
      requires Valid()
      modifies this
      ensures Valid()
      ensures var r := Interpreter.OnResult(old(Snapshot()), old(session.value), results, from, env);
        Snapshot() == r.0 && session == Some(r.1) && controls == r.2
    {
      var sess := session.value;
      var finalText, interim;
      controls, finalText, interim := HandleResults(Pending(results, from), sess.mode, sess.field, sess.finalText, env, LiveStep(sess.mode, sess.field, env));
      session := Some(sess.(finalText := finalText));
      transcript := Trim(finalText + " " + interim);
    }
  }
}
