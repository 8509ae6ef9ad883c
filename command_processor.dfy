/** src/core/voice/CommandProcessor.ts: the voice command dispatcher. Commands
    are kept in an insertion-ordered map from the lower-cased command phrase
    to its handler; a recognised sentence is lower-cased and trimmed, the
    first command (in registration order) that begins it is chosen, and its
    handler gets the remaining words. Anything else is passed on as chat. */
module CommandProcessor {
  import opened Wrappers
  import opened Sequences
  import opened OrderedMaps
  import opened JsStrings

  /** The `data` of a handler's result. */
  datatype Data =
    | NoData
    | Title(title: string)              // { title }
    | TaskId(taskId: Option<string>)    // { taskId }, undefined without a parameter
    | Tone(tone: Option<string>)        // { tone }, undefined without a parameter
    | Message(message: string)          // { message }

  datatype Response = Response(action: string, data: Data)

  /** A command handler: from the parameter words to the response it resolves to. */
  type Handler = seq<string> -> Response

  function FirstParam(params: seq<string>): Option<string> {
    if params == [] then None else Some(params[0])
  }

  function AddTask(params: seq<string>): Response { Response("addTask", Title(Join(params, " "))) }
  function ShowTasks(params: seq<string>): Response { Response("showTasks", NoData) }
  function CompleteTask(params: seq<string>): Response { Response("completeTask", TaskId(FirstParam(params))) }
  function NewChat(params: seq<string>): Response { Response("newChat", NoData) }
  function ChangeTone(params: seq<string>): Response { Response("changeTone", Tone(FirstParam(params))) }
  function GetFortune(params: seq<string>): Response { Response("getFortune", NoData) }
  function Close(params: seq<string>): Response { Response("close", NoData) }
  function OpenSettings(params: seq<string>): Response { Response("openSettings", NoData) }
  function ShowHelp(params: seq<string>): Response { Response("showHelp", NoData) }

  const AddTaskCommand: string := "افزودن کار"
  const ShowTasksCommand: string := "نمایش کارها"
  const CompleteTaskCommand: string := "انجام شد"
  const NewChatCommand: string := "چت جدید"
  const ChangeToneCommand: string := "تغییر لحن"
  const FortuneCommand: string := "فال حافظ"
  const CloseCommand: string := "بستن"
  const SettingsCommand: string := "تنظیمات"
  const HelpCommand: string := "کمک"

  /** The commands `registerDefaultCommands` registers, in order. */
  const DefaultCommands: seq<string> := [
    AddTaskCommand, ShowTasksCommand, CompleteTaskCommand, NewChatCommand, ChangeToneCommand,
    FortuneCommand, CloseCommand, SettingsCommand, HelpCommand]

  /** Their handlers, in the same order. */
  const DefaultHandlers: seq<Handler> := [
    AddTask, ShowTasks, CompleteTask, NewChat, ChangeTone, GetFortune, Close, OpenSettings, ShowHelp]

  /** The default table as `registerDefaultCommands` leaves it. */
  ghost predicate IsDefaultTable(m: OrderedMap<Handler>) {
    && m.Valid()
    && m.keys == DefaultCommands
    && forall j :: 0 <= j < |DefaultCommands| ==> m.entries[DefaultCommands[j]] == DefaultHandlers[j]
  }

  /** The table after the first `n` `register` calls of `registerDefaultCommands`. */
  function DefaultTable(n: nat): OrderedMap<Handler>
    requires n <= |DefaultCommands|
  {
    if n == 0 then Empty() else DefaultTable(n - 1).Set(DefaultCommands[n - 1], DefaultHandlers[n - 1])
  }

  /** What `process` matches against: the text lower-cased, then trimmed. */
  function Normalize(text: string): string {
    Trim(ToLower(text))
  }

  /** The first of `keys` that `normalized` starts with. */
  function FirstMatch(keys: seq<string>, normalized: string): (r: Option<nat>)
    ensures r.Some? ==> r.value < |keys| && keys[r.value] <= normalized
    ensures r.Some? ==> forall j :: 0 <= j < r.value ==> !(keys[j] <= normalized)
    ensures r.None? ==> forall j :: 0 <= j < |keys| ==> !(keys[j] <= normalized)
  {
    if keys == [] then None
    else if keys[0] <= normalized then Some(0)
    else match FirstMatch(keys[1..], normalized)
      case None => None
      case Some(i) => Some(i + 1)
  }

  /** The parameters of a matched command: the words after it. */
  function Params(normalized: string, command: string): seq<string>
    requires command <= normalized
  {
    Words(normalized[|command|..])
  }

  /** What `process(text)` resolves to with command table `commands`. */
  function Dispatch(commands: OrderedMap<Handler>, text: string): Response
    requires commands.Valid()
  {
    var normalized := Normalize(text);
    match FirstMatch(commands.keys, normalized)
    case Some(i) => commands.entries[commands.keys[i]](Params(normalized, commands.keys[i]))
    case None => Response("chat", Message(text))
  }

  class CommandProcessor {
    var commands: OrderedMap<Handler>

    ghost predicate Valid()
      reads this
    {
      commands.Valid()
    }

    /** The constructor, which runs `registerDefaultCommands`. */
    constructor()
      ensures Valid()
      ensures commands == DefaultTable(|DefaultCommands|)
      ensures IsDefaultTable(commands)
    {
      commands := Empty();
      new;
      RegisterDefaultCommands();
      DefaultTableIsDefault();
    }

    /** `registerDefaultCommands`: registers the nine default commands in
        order (the source spells out the nine `register` calls). */
    method RegisterDefaultCommands()
      requires Valid() && commands == Empty()
      modifies this
      ensures Valid()
      ensures commands == DefaultTable(|DefaultCommands|)
    {
      var i := 0;
      while i < |DefaultCommands|
        invariant 0 <= i <= |DefaultCommands|
        invariant Valid()
        invariant commands == DefaultTable(i)
      {
        DefaultCommandLower(i);
        Register(DefaultCommands[i], DefaultHandlers[i]);
        i := i + 1;
      }
    }

    /** `register`: stores the handler under the lower-cased command. A new
        command goes last; registering a present one replaces its handler
        where it stands. */
    method Register(command: string, handler: Handler)
      requires Valid()
      modifies this
      ensures Valid()
      ensures commands == old(commands).Set(ToLower(command), handler)
    {
      commands := commands.Set(ToLower(command), handler);
    }

    /** `process`: the first registered command that starts the normalised
        text decides the response; otherwise the original text is chat. */
    method Process(text: string) returns (response: Response)
      requires Valid()
      ensures response == Dispatch(commands, text)
    {
      var normalized := Trim(ToLower(text));
      var i := 0;
      while i < |commands.keys|
        invariant 0 <= i <= |commands.keys|
        invariant forall j :: 0 <= j < i ==> !(commands.keys[j] <= normalized)
      {
        var command := commands.keys[i];
        if command <= normalized {
          var params := Words(normalized[|command|..]);
          response := commands.entries[command](params);
          FirstMatchIs(commands.keys, normalized, i);
          return;
        }
        i := i + 1;
      }
      response := Response("chat", Message(text));
    }

    /** `getAvailableCommands`. */
    function GetAvailableCommands(): (r: seq<string>)
      requires Valid()
      reads this
      ensures forall k :: k in r <==> k in commands.entries
      ensures NoDuplicates(r)
      ensures r == commands.keys
    {
      commands.keys
    }
  }

  /** Registering stores the handler under the lower-cased command and
      changes no other entry; a new command goes last, and a command that is
      already present keeps its place, so no key is ever listed twice. */
  lemma RegisterEffect(m: OrderedMap<Handler>, command: string, handler: Handler)
    requires m.Valid()
    ensures m.Set(ToLower(command), handler).entries == m.entries[ToLower(command) := handler]
    ensures ToLower(command) in m.entries ==> m.Set(ToLower(command), handler).keys == m.keys
    ensures ToLower(command) !in m.entries ==> m.Set(ToLower(command), handler).keys == m.keys + [ToLower(command)]
    ensures NoDuplicates(m.Set(ToLower(command), handler).keys)
  {
  }

  lemma {:induction false} FirstMatchIs(keys: seq<string>, normalized: string, i: nat)
    requires i < |keys| && keys[i] <= normalized
    requires forall j :: 0 <= j < i ==> !(keys[j] <= normalized)
    ensures FirstMatch(keys, normalized) == Some(i)
  {
    if i > 0 {
      FirstMatchIs(keys[1..], normalized, i - 1);
    }
  }

  /** The default command words have no ASCII capitals, so registering them
      stores them as written. */
  lemma DefaultCommandLower(i: nat)
    requires i < |DefaultCommands|
    ensures ToLower(DefaultCommands[i]) == DefaultCommands[i]
  {
    ToLowerIdentity(DefaultCommands[i]);
  }

  /** A text that starts with `b` does not start with `a` when they differ at
      a position both have. */
  lemma PrefixClash(a: string, b: string, n: string, i: nat)
    requires b <= n && i < |a| && i < |b| && a[i] != b[i]
    ensures !(a <= n)
  {
    assert n[i] == b[i];
  }

  lemma DefaultCommandsDistinct()
    ensures NoDuplicates(DefaultCommands)
  {
    forall i, j | 0 <= i < j < |DefaultCommands| ensures DefaultCommands[i] != DefaultCommands[j] {
      assert DefaultCommands[i][0] != DefaultCommands[j][0] || |DefaultCommands[i]| != |DefaultCommands[j]|;
    }
  }

  /** The first `n` registrations add the first `n` default commands, in order. */
  lemma {:induction false} DefaultTableKeys(n: nat)
    requires n <= |DefaultCommands|
    ensures DefaultTable(n).keys == DefaultCommands[..n]
  {
    if n > 0 {
      DefaultTableKeys(n - 1);
      DefaultCommandsDistinct();
      var k := DefaultCommands[n - 1];
      assert k !in DefaultCommands[..n - 1];
      assert DefaultCommands[..n] == DefaultCommands[..n - 1] + [k];
    }
  }

  /** ... and store each under its own handler. */
  lemma {:induction false} DefaultTableEntries(n: nat)
    requires n <= |DefaultCommands|
    ensures forall j :: 0 <= j < n ==>
              DefaultCommands[j] in DefaultTable(n).entries && DefaultTable(n).entries[DefaultCommands[j]] == DefaultHandlers[j]
  {
    if n > 0 {
      DefaultTableEntries(n - 1);
      DefaultCommandsDistinct();
      var prev := DefaultTable(n - 1);
      var m := DefaultTable(n);
      assert m.entries == prev.entries[DefaultCommands[n - 1] := DefaultHandlers[n - 1]];
      forall j | 0 <= j < n
        ensures DefaultCommands[j] in m.entries && m.entries[DefaultCommands[j]] == DefaultHandlers[j]
      {
        if j < n - 1 {
          assert DefaultCommands[j] != DefaultCommands[n - 1];
        }
      }
    }
  }

  /** The nine `register` calls leave the nine default commands, in order,
      each under its own handler. */
  lemma DefaultTableIsDefault()
    ensures IsDefaultTable(DefaultTable(|DefaultCommands|))
  {
    DefaultTableKeys(|DefaultCommands|);
    DefaultTableEntries(|DefaultCommands|);
    assert DefaultCommands[..|DefaultCommands|] == DefaultCommands;
  }

  /** With the default table, a sentence starting with "افزودن کار" adds a
      task whose title is the remaining words joined by single spaces. */
  lemma DefaultAddTask(m: OrderedMap<Handler>, text: string)
    requires IsDefaultTable(m)
    requires AddTaskCommand <= Normalize(text)
    ensures Dispatch(m, text) == Response("addTask", Title(Join(Params(Normalize(text), AddTaskCommand), " ")))
  {
    assert m.keys[0] == AddTaskCommand && m.entries[DefaultCommands[0]] == AddTask;
    FirstMatchIs(m.keys, Normalize(text), 0);
  }

  /** "انجام شد" is the first default command that can start a text which
      starts with it. */
  lemma CompleteTaskMatched(keys: seq<string>, n: string)
    requires keys == DefaultCommands
    requires CompleteTaskCommand <= n
    ensures FirstMatch(keys, n) == Some(2)
  {
    assert keys[0] == AddTaskCommand && keys[1] == ShowTasksCommand && keys[2] == CompleteTaskCommand;
    PrefixClash(AddTaskCommand, CompleteTaskCommand, n, 1);
    PrefixClash(ShowTasksCommand, CompleteTaskCommand, n, 0);
    FirstMatchIs(keys, n, 2);
  }

  /** With the default table, a sentence starting with "انجام شد" completes
      the task named by its first remaining word (none without one). */
  lemma DefaultCompleteTask(m: OrderedMap<Handler>, text: string)
    requires IsDefaultTable(m)
    requires CompleteTaskCommand <= Normalize(text)
    ensures Dispatch(m, text) == Response("completeTask", TaskId(FirstParam(Params(Normalize(text), CompleteTaskCommand))))
  {
    CompleteTaskMatched(m.keys, Normalize(text));
    assert m.keys[2] == CompleteTaskCommand && m.entries[DefaultCommands[2]] == CompleteTask;
  }

  /** A sentence that starts with no registered command is answered as chat
      with the sentence exactly as it was heard, before normalisation. */
  lemma FallsBackToChat(m: OrderedMap<Handler>, text: string)
    requires m.Valid()
    requires forall j :: 0 <= j < |m.keys| ==> !(m.keys[j] <= Normalize(text))
    ensures Dispatch(m, text) == Response("chat", Message(text))
  {
  }
}
