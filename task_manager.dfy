/**
 * The state of the voice task manager page and its handlers. The page keeps
 * `tasks`, `feedback` and `transcript` as component state and updates them
 * through their setters; here they are fields that the handler methods assign.
 * Clock readings, dialog answers and recognizer events arrive as parameters.
 */
module TaskManager {
  import opened Optional
  import opened JsString
  import opened TaskList
  import opened VoiceCommands

  /** The due date of a manual add: the typed text, with the instant it parses to, unless the prompt was cancelled or left empty. */
  function DueFromInput(dueInput: Option<string>, instant: Option<int>): (d: Option<Due>)
    ensures d.Some? <==> dueInput.Some? && dueInput.value != ""
    ensures d.Some? ==> d.value == Due(dueInput.value, instant)
  {
    match dueInput
    case None => None
    case Some(raw) => if raw != "" then Some(Due(raw, instant)) else None
  }

  /** The line spoken for a reminder: the task's text between "Reminder: " and " is due soon". */
  function ReminderSpeech(t: Task): (line: string)
    ensures |line| == |t.text| + 22
    ensures line[..10] == "Reminder: " && line[|line| - 12..] == " is due soon"
    ensures line[10..|line| - 12] == t.text
  {
    "Reminder: " + t.text + " is due soon"
  }

  class VoiceTaskManager {
    var tasks: seq<Task>
    var feedback: string
    var transcript: string

    /** The page starts with no tasks, no feedback and no transcript. */
    constructor ()
      ensures tasks == [] && feedback == "" && transcript == ""
    {
      tasks := [];
      feedback := "";
      transcript := "";
    }

    /**
     * `processVoiceCommand`: dispatch on the trigger the command starts with,
     * update the list and the feedback line, and return what is spoken.
     */
    method ProcessVoiceCommand(rawCommand: string, now: int) returns (spoken: Option<string>)
      modifies this
      ensures tasks == ApplyCommand(ParseCommand(rawCommand), old(tasks), now)
      ensures feedback == FeedbackAfter(ParseCommand(rawCommand), old(feedback))
      ensures spoken == SpokenReply(ParseCommand(rawCommand))
      ensures transcript == old(transcript)
    {
      ParseByTrigger(rawCommand);
      var newTasks, newFeedback := tasks, feedback;
      if StartsWith(rawCommand, AddTrigger) {
        var text := Remainder(rawCommand, AddTrigger);
        spoken := None;
        if text != "" {
          newTasks := newTasks + [Task(now, text, false, now, None)];
          newFeedback := "Added: " + text;
          spoken := Some("Task added: " + text);
        }
      } else if StartsWith(rawCommand, DeleteTrigger) {
        var text := Remainder(rawCommand, DeleteTrigger);
        newTasks := DeleteByText(newTasks, text);
        newFeedback := "Deleted: " + text;
        spoken := Some("Deleted task: " + text);
      } else if StartsWith(rawCommand, CompleteTrigger) {
        var text := Remainder(rawCommand, CompleteTrigger);
        newTasks := CompleteByText(newTasks, text);
        newFeedback := "Completed: " + text;
        spoken := Some("Marked as completed: " + text);
      } else {
        newFeedback := NotUnderstood;
        spoken := Some(NotUnderstood);
      }
      tasks, feedback := newTasks, newFeedback;
    }

    /**
     * The recognizer's `onresult` handler: show the assembled transcript and,
     * when the last result is final, run its lower-cased text as a command.
     */
    method OnResult(results: seq<SpeechResult>, resultIndex: nat, now: int) returns (spoken: Option<string>)
      modifies this
      ensures transcript == Trim(Joined(Unread(results, resultIndex)))
      ensures var isFinal := results != [] && results[|results| - 1].isFinal;
        && tasks == (if isFinal then ApplyCommand(ParseCommand(ToLower(transcript)), old(tasks), now) else old(tasks))
        && feedback == (if isFinal then FeedbackAfter(ParseCommand(ToLower(transcript)), old(feedback)) else old(feedback))
        && spoken == (if isFinal then SpokenReply(ParseCommand(ToLower(transcript))) else None)
    {
      var text := AssembleTranscript(results, resultIndex);
      transcript := text;
      spoken := None;
      if results != [] && results[|results| - 1].isFinal {
        spoken := ProcessVoiceCommand(ToLower(text), now);
      }
    }

    /**
     * `addManualTask`: a non-blank answer to the text prompt appends an open
     * task with the trimmed text and the due date typed, if any; the feedback
     * and the spoken reply quote the answer as typed. A cancelled or blank
     * answer changes nothing.
     */
    method AddManualTask(taskText: Option<string>, dueInput: Option<string>, dueInstant: Option<int>, now: int)
      returns (spoken: Option<string>)
      modifies this
      ensures var added := taskText.Some? && Trim(taskText.value) != "";
        && tasks == (if added then old(tasks) + [Task(now, Trim(taskText.value), false, now, DueFromInput(dueInput, dueInstant))]
                     else old(tasks))
        && feedback == (if added then "Added: " + taskText.value else old(feedback))
        && spoken == (if added then Some("Task added: " + taskText.value) else None)
      ensures transcript == old(transcript)
    {
      spoken := None;
      if taskText.Some? && Trim(taskText.value) != "" {
        var dueDate := DueFromInput(dueInput, dueInstant);
        var newTask := Task(now, Trim(taskText.value), false, now, dueDate);
        tasks := tasks + [newTask];
        feedback := "Added: " + taskText.value;
        spoken := Some("Task added: " + taskText.value);
      }
    }

    /** The round button of a task card: flip `completed` on the tasks with that id. */
    method ToggleTask(id: int)
      modifies this
      ensures tasks == ToggleById(old(tasks), id)
      ensures feedback == old(feedback) && transcript == old(transcript)
    {
      tasks := ToggleById(tasks, id);
    }

    /** The trash button of a task card: remove the tasks with that id. */
    method DeleteTask(id: int)
      modifies this
      ensures tasks == DeleteById(old(tasks), id)
      ensures feedback == old(feedback) && transcript == old(transcript)
    {
      tasks := DeleteById(tasks, id);
    }

    /** "Delete All": when the confirmation is accepted the list is emptied and the deletion announced. */
    method ClearAll(confirmed: bool) returns (spoken: Option<string>)
      modifies this
      ensures tasks == (if confirmed then [] else old(tasks))
      ensures spoken == (if confirmed then Some("All tasks deleted") else None)
      ensures feedback == old(feedback) && transcript == old(transcript)
    {
      spoken := None;
      if confirmed {
        tasks := [];
        spoken := Some("All tasks deleted");
      }
    }

    /**
     * One tick of the reminder timer: walk the list in order and collect the
     * open tasks with a due date falling strictly within the next minute of
     * the clock reading taken for that task. `nows[i]` is the reading taken
     * when task `i` is reached, which is after every earlier reminder has been
     * dismissed. Each reminder is also spoken, in the same order.
     */
    method CheckReminders(nows: seq<int>) returns (due: seq<Task>, spoken: seq<string>)
      requires |nows| == |tasks|
      ensures due == Reminders(tasks, nows, |tasks|)
      ensures forall t :: t in due <==> exists i :: 0 <= i < |tasks| && tasks[i] == t && DueSoon(tasks[i], nows[i])
      ensures |spoken| == |due|
      ensures forall k :: 0 <= k < |due| ==> spoken[k] == ReminderSpeech(due[k])
    {
      var ts := tasks;
      due, spoken := [], [];
      var i := 0;
      while i < |ts|
        invariant 0 <= i <= |ts|
        invariant due == Reminders(ts, nows, i)
        invariant |spoken| == |due|
        invariant forall k :: 0 <= k < |due| ==> spoken[k] == ReminderSpeech(due[k])
      {
        var task := ts[i];
        if task.dueDate.Some? && task.dueDate.value.raw != "" && !task.completed {
          var now := nows[i];
          match task.dueDate.value.instant {
            case Some(dueAt) =>
              var diff := dueAt - now;
              if diff > 0 && diff < 60000 {
                due := due + [task];
                spoken := spoken + [ReminderSpeech(task)];
              }
            case None =>
          }
        }
        i := i + 1;
      }
      RemindersMembers(ts, nows, |ts|);
    }
  }

}
