/**
 * The popup launcher (class `UI`): its start-up data and the state machine
 * driven by the key, edit, highlight, text-change and Return events.
 * Widget-supplied values (the typed text, the completer's prefix and its own
 * current completion) are parameters of the events; the command handlers are
 * a table from method name to what calling it does; the history file is a value.
 */
module Launcher {
  import opened Wrappers
  import History
  import Completion

  /** The catalog file as loaded: its keys in iteration order and the name to icon mapping. */
  datatype Catalog = Catalog(names: seq<string>, icons: map<string, string>)

  /** What a dictionary's iteration yields: every key once. */
  ghost predicate WellFormed(c: Catalog)
  {
    && (forall i, j :: 0 <= i < j < |c.names| ==> c.names[i] != c.names[j])
    && (forall n :: n in c.names <==> n in c.icons)
  }

  /** The data `createData` prepares: the command names and the history list. */
  datatype Session = Session(commands: seq<string>, history: seq<string>)

  /**
   * `createData` (lines 121-163) without the item models: a missing catalog
   * file reads as an empty one; a missing history file makes the history loop
   * raise `TypeError`; a history name with no catalog entry raises `KeyError`.
   * Returns the outcome and the history file afterwards.
   */
  function CreateData(catalog: Option<Catalog>, historyFile: Option<string>): (r: (Result<Session>, Option<string>))
    requires catalog.Some? ==> WellFormed(catalog.value)
    ensures r.1 == History.LoadHistory(historyFile).1
    ensures historyFile.None? ==> r.0 == Err(TypeError)
    ensures historyFile.Some? ==>
      var names := if catalog.Some? then catalog.value.names else [];
      var h := History.Parse(historyFile.value);
      && (r.0.Ok? <==> forall i :: 0 <= i < |h| ==> h[i] in names)
      && (r.0.Ok? ==> r.0.value == Session(names, h))
      && (r.0.Err? ==> r.0.error == KeyError)
  {
    var c := if catalog.Some? then catalog.value else Catalog([], map[]);
    var (loaded, file') := History.LoadHistory(historyFile);
    if loaded.None? then (Err(TypeError), file')
    else if forall i :: 0 <= i < |loaded.value| ==> loaded.value[i] in c.icons then
      (Ok(Session(c.names, loaded.value)), file')
    else (Err(KeyError), file')
  }

  /**
   * `createData` with the history loaded as intended: on a first launch, with
   * no history file yet, the session starts with an empty history.
   */
  function CreateDataCorrected(catalog: Option<Catalog>, historyFile: Option<string>): (r: (Result<Session>, Option<string>))
    requires catalog.Some? ==> WellFormed(catalog.value)
    ensures r.1 == History.LoadHistory(historyFile).1
    ensures
      var names := if catalog.Some? then catalog.value.names else [];
      var h := if historyFile.Some? then History.Parse(historyFile.value) else [];
      && (r.0.Ok? <==> forall i :: 0 <= i < |h| ==> h[i] in names)
      && (r.0.Ok? ==> r.0.value == Session(names, h))
      && (r.0.Err? ==> r.0.error == KeyError)
    ensures historyFile.None? ==> r.0 == Ok(Session(if catalog.Some? then catalog.value.names else [], []))
  {
    var c := if catalog.Some? then catalog.value else Catalog([], map[]);
    var (loaded, file') := History.LoadHistoryOrEmpty(historyFile);
    if forall i :: 0 <= i < |loaded| ==> loaded[i] in c.icons then
      (Ok(Session(c.names, loaded)), file')
    else (Err(KeyError), file')
  }

  /** Which completer the line edit currently uses (its object name). */
  datatype CompleterKind = CommandCompleter | HistoryCompleter

  datatype Key = KeyDown | OtherKey

  /** The `currentCompletion` attribute: never assigned, `None`, or a name. */
  datatype Slot = Unset | Absent | Name(name: string)

  /** What calling a command handler does. */
  datatype HandlerResult = Completes | RaisesRuntimeError

  /** What `secondaryExecution` raises, if anything. */
  datatype Raised = NoRaise | RuntimeErr | Escapes(error: PyError)

  /** What pressing Return ends in. */
  datatype ReturnOutcome =
    | RepeatHookSet(command: string)  // lines 272-276
    | NoCommandWarning                // line 278
    | HandlerFailed                   // lines 265-268
    | Uncaught(error: PyError)        // an exception other than RuntimeError leaves the handler

  /** The method `exec "self._%s()" % name` calls. */
  function MethodName(name: string): string
  {
    "_" + name
  }

  /** The name Return would dispatch, per lines 285-299, as a function of the state. */
  datatype Target = NoTarget | Target(name: string) | TargetError(error: PyError)

  class UI {
    const commands: seq<string>
    var completer: CompleterKind
    var executeType: int
    var selected: Option<string>
    var currentCompletion: Slot
    var lastCommand: Option<string>
    var closed: bool

    ghost predicate Valid()
      reads this
    {
      && (executeType == 0 || executeType == 1)
      && (executeType == 1 ==> selected.Some?)
    }

    /** Lines 83-119 and 192: the fresh window's state. */
    constructor (session: Session)
      ensures Valid()
      ensures commands == session.commands && completer == CommandCompleter
      ensures executeType == 0 && selected == None && currentCompletion == Unset
      ensures lastCommand == None && !closed
    {
      commands := session.commands;
      completer := CommandCompleter;
      executeType := 0;
      selected := None;
      currentCompletion := Unset;
      lastCommand := None;
      closed := false;
    }

    /** What Return dispatches: the highlighted name in mode 1, else `currentCompletion`. */
    ghost function ReturnTarget(): (t: Target)
      reads this
      requires Valid()
      ensures executeType == 1 ==> t == Target(selected.value)
      ensures executeType == 0 && currentCompletion.Name? ==> t == Target(currentCompletion.name)
      ensures t == NoTarget <==> executeType == 0 && currentCompletion == Absent
      ensures t.TargetError? <==> executeType == 0 && currentCompletion == Unset
      ensures t.TargetError? ==> t.error == AttributeError
    {
      if executeType == 1 then Target(selected.value)
      else match currentCompletion
        case Unset => TargetError(AttributeError)
        case Absent => NoTarget
        case Name(n) => Target(n)
    }

    /** `keyPressEvent` (198-206): Down switches to the history completer, any other key closes. */
    method KeyPress(key: Key)
      requires Valid()
      modifies this
      ensures Valid()
      ensures key == KeyDown ==> completer == HistoryCompleter && closed == old(closed)
      ensures key != KeyDown ==> completer == old(completer) && closed
      ensures executeType == old(executeType) && selected == old(selected)
      ensures currentCompletion == old(currentCompletion) && lastCommand == old(lastCommand)
    {
      if key == KeyDown {
        completer := HistoryCompleter;
      } else {
        closed := true;
      }
    }

    /** `updateData` (208-215): an edit that empties the text restores the command completer. */
    method TextEdited(text: string)
      requires Valid()
      modifies this`completer
      ensures Valid()
      ensures completer == if text == "" then CommandCompleter else old(completer)
    {
      if text == "" {
        completer := CommandCompleter;
      }
    }

    /** `selectionCallback` (223-226): a highlighted name is kept and execution switches to type 1. */
    method Highlight(name: string) returns (r: string)
      requires Valid()
      modifies this`selected, this`executeType
      ensures Valid()
      ensures selected == Some(name) && executeType == 1 && r == name
    {
      selected := Some(name);
      executeType := 1;
      r := name;
    }

    /**
     * `getCurrentCompletion` (228-257): in command mode the widget's completion
     * or the first matching command; in history mode exactly the typed text.
     */
    method TextChanged(prefix: string, widgetCompletion: string, text: string) returns (r: Slot)
      requires Valid()
      modifies this`currentCompletion
      ensures Valid()
      ensures completer == CommandCompleter ==>
        currentCompletion == match Completion.ResolveCommandCompletion(commands, prefix, widgetCompletion)
                             case None => Absent
                             case Some(n) => Name(n)
      ensures completer == HistoryCompleter ==> currentCompletion == Name(text)
      ensures r == currentCompletion
    {
      match completer {
        case CommandCompleter =>
          var choice := Completion.ResolveCommandCompletion(commands, prefix, widgetCompletion);
          currentCompletion := if choice.Some? then Name(choice.value) else Absent;
        case HistoryCompleter =>
          currentCompletion := Name(text);
      }
      r := currentCompletion;
    }

    /**
     * Lines 285-301: call the handler of the target, then close the window and
     * remember the target as `lastCommand`; no target closes and records `None`.
     */
    method Dispatch(handlers: map<string, HandlerResult>) returns (raised: Raised)
      requires Valid()
      modifies this`closed, this`lastCommand
      ensures Valid()
      ensures match old(ReturnTarget())
        case TargetError(e) =>
          raised == Escapes(e) && closed == old(closed) && lastCommand == old(lastCommand)
        case NoTarget =>
          raised == NoRaise && closed && lastCommand == None
        case Target(n) =>
          if MethodName(n) !in handlers then
            raised == Escapes(AttributeError) && closed == old(closed) && lastCommand == old(lastCommand)
          else if handlers[MethodName(n)] == RaisesRuntimeError then
            raised == RuntimeErr && closed == old(closed) && lastCommand == old(lastCommand)
          else
            raised == NoRaise && closed && lastCommand == Some(n)
    {
      var target: string;
      if executeType == 0 {
        match currentCompletion
        case Unset =>
          return Escapes(AttributeError);
        case Absent =>
          closed := true;
          lastCommand := None;
          return NoRaise;
        case Name(n) =>
          target := n;
      } else {
        target := selected.value;
      }
      if MethodName(target) !in handlers {
        return Escapes(AttributeError);
      }
      if handlers[MethodName(target)] == RaisesRuntimeError {
        return RuntimeErr;
      }
      closed := true;
      lastCommand := Some(target);
      return NoRaise;
    }

    /** `secondaryExecution` (280-304): dispatch, then `updateHistory(self.lastCommand)`. */
    method SecondaryExecution(handlers: map<string, HandlerResult>, file: Option<string>)
      returns (raised: Raised, file': Option<string>)
      requires Valid()
      modifies this`closed, this`lastCommand
      ensures Valid()
      ensures match old(ReturnTarget())
        case TargetError(e) =>
          raised == Escapes(e) && file' == file && closed == old(closed) && lastCommand == old(lastCommand)
        case NoTarget =>
          raised == Escapes(TypeError) && file' == Some("") && closed && lastCommand == None
        case Target(n) =>
          if MethodName(n) !in handlers then
            raised == Escapes(AttributeError) && file' == file
            && closed == old(closed) && lastCommand == old(lastCommand)
          else if handlers[MethodName(n)] == RaisesRuntimeError then
            raised == RuntimeErr && file' == file && closed == old(closed) && lastCommand == old(lastCommand)
          else
            && closed && lastCommand == Some(n)
            && (file.None? ==> raised == Escapes(TypeError) && file' == Some(""))
            && (file.Some? ==>
                  raised == NoRaise
                  && file' == Some(History.Serialize(History.Promote(History.Parse(file.value), n))))
    {
      raised := Dispatch(handlers);
      if raised != NoRaise {
        return raised, file;
      }
      var err;
      file', err := History.UpdateHistory(file, lastCommand);
      if err.Some? {
        raised := Escapes(err.value);
      }
    }

    /**
     * `initialExecution` (259-278): a `RuntimeError` from the handler closes the
     * window and ends the event; otherwise the repeat hook is registered for
     * `lastCommand`, or a warning is issued when it is `None`.
     */
    method InitialExecution(handlers: map<string, HandlerResult>, file: Option<string>)
      returns (outcome: ReturnOutcome, file': Option<string>)
      requires Valid()
      modifies this`closed, this`lastCommand
      ensures Valid()
      ensures outcome != NoCommandWarning
      ensures match old(ReturnTarget())
        case TargetError(e) =>
          outcome == Uncaught(e) && file' == file && closed == old(closed) && lastCommand == old(lastCommand)
        case NoTarget =>
          outcome == Uncaught(TypeError) && file' == Some("") && closed && lastCommand == None
        case Target(n) =>
          if MethodName(n) !in handlers then
            outcome == Uncaught(AttributeError) && file' == file
            && closed == old(closed) && lastCommand == old(lastCommand)
          else if handlers[MethodName(n)] == RaisesRuntimeError then
            outcome == HandlerFailed && file' == file && closed && lastCommand == old(lastCommand)
          else
            && closed && lastCommand == Some(n)
            && (file.None? ==> outcome == Uncaught(TypeError) && file' == Some(""))
            && (file.Some? ==>
                  outcome == RepeatHookSet(n)
                  && file' == Some(History.Serialize(History.Promote(History.Parse(file.value), n))))
    {
      var raised;
      raised, file' := SecondaryExecution(handlers, file);
      match raised
      case RuntimeErr =>
        closed := true;
        return HandlerFailed, file';
      case Escapes(e) =>
        return Uncaught(e), file';
      case NoRaise =>
        if lastCommand.Some? {
          outcome := RepeatHookSet(lastCommand.value);
        } else {
          outcome := NoCommandWarning;
        }
    }
 
    /**
     * `initialExecution` as its lines 272-278 evidently intend: the history is
     * updated only when a command was dispatched, so a Return with nothing to
     * dispatch reaches the warning and leaves the history file as it was.
     */
    method InitialExecutionGuarded(handlers: map<string, HandlerResult>, file: Option<string>)
      returns (outcome: ReturnOutcome, file': Option<string>)
      requires Valid()
      modifies this`closed, this`lastCommand
      ensures Valid()
      ensures match old(ReturnTarget())
        case TargetError(e) =>
          outcome == Uncaught(e) && file' == file && closed == old(closed) && lastCommand == old(lastCommand)
        case NoTarget =>
          outcome == NoCommandWarning && file' == file && closed && lastCommand == None
        case Target(n) =>
          if MethodName(n) !in handlers then
            outcome == Uncaught(AttributeError) && file' == file
            && closed == old(closed) && lastCommand == old(lastCommand)
          else if handlers[MethodName(n)] == RaisesRuntimeError then
            outcome == HandlerFailed && file' == file && closed && lastCommand == old(lastCommand)
          else
            && closed && lastCommand == Some(n)
            && (file.None? ==> outcome == Uncaught(TypeError) && file' == Some(""))
            && (file.Some? ==>
                  outcome == RepeatHookSet(n)
                  && file' == Some(History.Serialize(History.Promote(History.Parse(file.value), n))))
    {
      var raised := Dispatch(handlers);
      file' := file;
      if raised == NoRaise && lastCommand.Some? {
        var err;
        file', err := History.UpdateHistory(file, lastCommand);
        if err.Some? {
          raised := Escapes(err.value);
        }
      }
      match raised
      case RuntimeErr =>
        closed := true;
        return HandlerFailed, file';
      case Escapes(e) =>
        return Uncaught(e), file';
      case NoRaise =>
        if lastCommand.Some? {
          outcome := RepeatHookSet(lastCommand.value);
        } else {
          outcome := NoCommandWarning;
        }
    }
  }
}
