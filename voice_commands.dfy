/**
 * The voice-command interpreter of the task manager page: a literal prefix
 * dispatcher over the lower-cased, trimmed transcript, and what each command
 * does to the task list, to the feedback line and to the spoken reply. Also
 * the transcript assembly of the recognizer's result handler.
 */
module VoiceCommands {
  import opened Optional
  import opened JsString
  import opened TaskList

  const AddTrigger: string := "add task"
  const DeleteTrigger: string := "delete task"
  const CompleteTrigger: string := "complete task"
  const NotUnderstood: string := "Sorry, I didn't understand."

  /** A transcript as the dispatcher reads it: the trigger it starts with and the trimmed remainder. */
  datatype Command =
    | AddCommand(text: string)
    | DeleteCommand(text: string)
    | CompleteCommand(text: string)
    | Unrecognised

  /** The text of a command: drop the first occurrence of the trigger, then trim what is left. */
  function Remainder(raw: string, trigger: string): string {
    Trim(Replace(raw, trigger, ""))
  }

  /** For a command that starts with its trigger, removing the first occurrence is removing the prefix. */
  lemma RemainderAfterTrigger(raw: string, trigger: string)
    requires StartsWith(raw, trigger)
    ensures Remainder(raw, trigger) == Trim(raw[|trigger|..])
  {
    ReplaceLeadingOccurrence(raw, trigger, "");
    assert "" + raw[|trigger|..] == raw[|trigger|..];
  }

  /**
   * The dispatch of `processVoiceCommand`: the triggers are tried in the order
   * add, delete, complete, and the text is whatever follows the trigger, trimmed
   * (so "add taskfoo" adds "foo").
   */
  function ParseCommand(raw: string): (c: Command)
    ensures c.AddCommand? <==> StartsWith(raw, AddTrigger)
    ensures c.DeleteCommand? <==> !StartsWith(raw, AddTrigger) && StartsWith(raw, DeleteTrigger)
    ensures c.CompleteCommand? <==>
              !StartsWith(raw, AddTrigger) && !StartsWith(raw, DeleteTrigger) && StartsWith(raw, CompleteTrigger)
    ensures c == Unrecognised <==>
              !StartsWith(raw, AddTrigger) && !StartsWith(raw, DeleteTrigger) && !StartsWith(raw, CompleteTrigger)
    ensures c.AddCommand? ==> c.text == Trim(raw[|AddTrigger|..])
    ensures c.DeleteCommand? ==> c.text == Trim(raw[|DeleteTrigger|..])
    ensures c.CompleteCommand? ==> c.text == Trim(raw[|CompleteTrigger|..])
  {
    if StartsWith(raw, AddTrigger) then
      RemainderAfterTrigger(raw, AddTrigger);
      AddCommand(Remainder(raw, AddTrigger))
    else if StartsWith(raw, DeleteTrigger) then
      RemainderAfterTrigger(raw, DeleteTrigger);
      DeleteCommand(Remainder(raw, DeleteTrigger))
    else if StartsWith(raw, CompleteTrigger) then
      RemainderAfterTrigger(raw, CompleteTrigger);
      CompleteCommand(Remainder(raw, CompleteTrigger))
    else
      Unrecognised
  }

  /** A command that starts with a trigger parses to that trigger's command on the remainder. */
  lemma ParseByTrigger(raw: string)
    ensures StartsWith(raw, AddTrigger) ==> ParseCommand(raw) == AddCommand(Remainder(raw, AddTrigger))
    ensures !StartsWith(raw, AddTrigger) && StartsWith(raw, DeleteTrigger) ==>
              ParseCommand(raw) == DeleteCommand(Remainder(raw, DeleteTrigger))
    ensures !StartsWith(raw, AddTrigger) && !StartsWith(raw, DeleteTrigger) && StartsWith(raw, CompleteTrigger) ==>
              ParseCommand(raw) == CompleteCommand(Remainder(raw, CompleteTrigger))
  {
  }

  /**
   * The task list after a command. `now` is the clock reading that the add
   * uses both as the new task's id (`Date.now()`) and as its `createdAt`.
   */
  function ApplyCommand(c: Command, ts: seq<Task>, now: int): seq<Task> {
    match c
    case AddCommand(text) => if text != "" then ts + [Task(now, text, false, now, None)] else ts
    case DeleteCommand(text) => DeleteByText(ts, text)
    case CompleteCommand(text) => CompleteByText(ts, text)
    case Unrecognised => ts
  }

  /** The feedback line after a command; an add with nothing to add leaves it as it was. */
  function FeedbackAfter(c: Command, previous: string): string {
    match c
    case AddCommand(text) => if text != "" then "Added: " + text else previous
    case DeleteCommand(text) => "Deleted: " + text
    case CompleteCommand(text) => "Completed: " + text
    case Unrecognised => NotUnderstood
  }

  /** What the command hands to speech synthesis, if anything. */
  function SpokenReply(c: Command): Option<string> {
    match c
    case AddCommand(text) => if text != "" then Some("Task added: " + text) else None
    case DeleteCommand(text) => Some("Deleted task: " + text)
    case CompleteCommand(text) => Some("Marked as completed: " + text)
    case Unrecognised => Some(NotUnderstood)
  }

  /**
   * "add task X": with a non-empty trimmed remainder the list grows by exactly
   * one open task with that text and no due date, at the end; with an empty
   * remainder neither the list nor the feedback changes.
   */
  lemma VoiceAdd(raw: string, ts: seq<Task>, now: int, previous: string)
    requires StartsWith(raw, AddTrigger)
    ensures var text, r := Trim(raw[|AddTrigger|..]), ApplyCommand(ParseCommand(raw), ts, now);
      if text != "" then
        && |r| == |ts| + 1 && r[..|ts|] == ts
        && r[|ts|] == Task(now, text, false, now, None)
        && FeedbackAfter(ParseCommand(raw), previous) == "Added: " + text
      else
        r == ts && FeedbackAfter(ParseCommand(raw), previous) == previous
  {
  }

  /**
   * "delete task X": the survivors are exactly the tasks whose lower-cased text
   * differs from X; when none matches the list is unchanged, and the feedback
   * still reports the deletion.
   */
  lemma VoiceDelete(raw: string, ts: seq<Task>, now: int, previous: string)
    requires !StartsWith(raw, AddTrigger) && StartsWith(raw, DeleteTrigger)
    ensures var text, r := Trim(raw[|DeleteTrigger|..]), ApplyCommand(ParseCommand(raw), ts, now);
      && (forall t :: t in r <==> t in ts && LowerText(t) != text)
      && ((forall t :: t in ts ==> LowerText(t) != text) ==> r == ts)
      && FeedbackAfter(ParseCommand(raw), previous) == "Deleted: " + text
  {
    var text := Trim(raw[|DeleteTrigger|..]);
    if forall t :: t in ts ==> LowerText(t) != text {
      DeleteByTextNoMatch(ts, text);
    }
  }

  /**
   * "complete task X": same length and order, exactly the tasks whose
   * lower-cased text is X become completed, nothing else changes, and saying
   * it twice is the same as saying it once.
   */
  lemma VoiceComplete(raw: string, ts: seq<Task>, now: int)
    requires !StartsWith(raw, AddTrigger) && !StartsWith(raw, DeleteTrigger) && StartsWith(raw, CompleteTrigger)
    ensures var text, c := Trim(raw[|CompleteTrigger|..]), ParseCommand(raw);
      var r := ApplyCommand(c, ts, now);
      && |r| == |ts|
      && (forall i :: 0 <= i < |ts| ==> r[i].completed == (ts[i].completed || LowerText(ts[i]) == text))
      && (forall i :: 0 <= i < |ts| ==> r[i].(completed := ts[i].completed) == ts[i])
      && ApplyCommand(c, r, now) == r
  {
    CompleteByTextIdempotent(ts, Trim(raw[|CompleteTrigger|..]));
  }

  /** Anything else leaves the list alone and answers that it was not understood. */
  lemma VoiceUnrecognised(raw: string, ts: seq<Task>, now: int, previous: string)
    requires !StartsWith(raw, AddTrigger) && !StartsWith(raw, DeleteTrigger) && !StartsWith(raw, CompleteTrigger)
    ensures ApplyCommand(ParseCommand(raw), ts, now) == ts
    ensures FeedbackAfter(ParseCommand(raw), previous) == NotUnderstood
    ensures SpokenReply(ParseCommand(raw)) == Some(NotUnderstood)
  {
  }

  /** The trigger need not be followed by a space: "add taskfoo" adds "foo". */
  lemma AddTaskWithoutSpace()
    ensures ParseCommand("add taskfoo") == AddCommand("foo")
  {
    var raw := "add taskfoo";
    assert raw[..|AddTrigger|] == AddTrigger;
    assert raw[|AddTrigger|..] == "foo";
    assert Trim("foo") == "foo" by {
      assert LeadingSpaces("foo") == 0 && TrailingSpaces("foo") == 0;
    }
  }

  // ---------------------------------------------------------------------------
  // Transcript assembly
  // ---------------------------------------------------------------------------

  /** One entry of the recognizer's result list: its best alternative's transcript and whether it is final. */
  datatype SpeechResult = SpeechResult(transcript: string, isFinal: bool)

  /** The results from `resultIndex` on; none when the index lies past the end. */
  function Unread(results: seq<SpeechResult>, resultIndex: nat): seq<SpeechResult> {
    if resultIndex <= |results| then results[resultIndex..] else []
  }

  /** Each transcript followed by one space, in order. */
  function Joined(results: seq<SpeechResult>): string {
    if results == [] then ""
    else Joined(results[..|results| - 1]) + results[|results| - 1].transcript + " "
  }

  /**
   * The `onresult` loop: concatenate the transcripts from `resultIndex` on,
   * each followed by a space, then trim.
   */
  method AssembleTranscript(results: seq<SpeechResult>, resultIndex: nat) returns (text: string)
    ensures text == Trim(Joined(Unread(results, resultIndex)))
    ensures text == [] || (!IsSpace(text[0]) && !IsSpace(text[|text| - 1]))
  {
    var acc := "";
    var i := resultIndex;
    while i < |results|
      invariant i <= |results| ==> resultIndex <= i && acc == Joined(results[resultIndex..i])
      invariant i > |results| ==> i == resultIndex && acc == ""
    {
      assert results[resultIndex..i + 1][..i - resultIndex] == results[resultIndex..i];
      acc := acc + results[i].transcript + " ";
      i := i + 1;
    }
    if resultIndex <= |results| {
      assert results[resultIndex..i] == results[resultIndex..];
    }
    text := Trim(acc);
  }

}
