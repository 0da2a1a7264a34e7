/**
  The control flow of `main()` in plugins/smart-compact/scripts/auto-compact.py,
  as a pure function from what the script observes (a `World`) to the trace
  of externally visible events it produces. Tier 1 sends the command to a
  tmux session; Tier 2 types it with pyautogui while the terminal is focused.
 */
module Dispatch {
  import opened PyText
  import opened Sanitize
  import opened Gates

  /** Everything `main()` learns from outside: the two temp files, whether
      tmux is on the PATH, which sessions `tmux has-session` accepts, whether
      each `send_via_tmux` call succeeds, and whether pyautogui imports. */
  datatype World = World(
    instructionsPresent: bool,
    instructionsAge: int,        // whole seconds, rounded up
    instructionsText: string,
    sessionFilePresent: bool,
    sessionText: string,
    tmuxOnPath: bool,
    liveSessions: set<string>,
    compactSent: bool,           // send_via_tmux(session, compact_cmd)
    continueSent: bool,          // send_via_tmux(session, "continue")
    pyautoguiInstalled: bool)

  /** The externally visible steps of a run, in the order they happen. */
  datatype Event =
    | Notify(notice: Notice)
    | Exit(code: int)                            // sys.exit
    | HasSession(session: string)                // tmux has-session -t session
    | TmuxSend(session: string, keys: string)    // tmux send-keys -t session keys Enter
    | Type(keys: string)                         // pyautogui.write(keys); press('enter')
    | Sleep(seconds: nat)
    | Cleanup                                    // both temp files removed
    | Return                                     // main() returns normally

  /** The pause after the `/compact` command, before "continue" is sent. */
  const SettleSeconds: nat := 6
  const CompactPrefix: string := "/compact "
  const Continue: string := "continue"

  /** `f"/compact {escape_instructions(instructions)}"` */
  function CompactCommand(instructions: string): (cmd: string)
    ensures |cmd| >= |CompactPrefix| && cmd[..|CompactPrefix|] == CompactPrefix
    ensures OneLine(cmd[|CompactPrefix|..])
    ensures Split(cmd[|CompactPrefix|..]) == Split(instructions)
  {
    var e := Escape(instructions);
    assert (CompactPrefix + e)[|CompactPrefix|..] == e;
    CompactPrefix + e
  }

  predicate Terminal(e: Event) {
    e.Exit? || e.Return?
  }

  /** Tier 2: the warning, then `send_via_pyautogui` twice with the pause
      between, then cleanup. A missing pyautogui stops the first call. */
  function KeyboardTier(w: World, cmd: string): (t: seq<Event>)
    ensures |t| >= 3 && t[0] == Notify(KeyboardFallback) && Terminal(t[|t| - 1])
  {
    [Notify(KeyboardFallback)] +
    if !w.pyautoguiInstalled then [Notify(PyautoguiMissing), Exit(1)]
    else [Type(cmd), Sleep(SettleSeconds), Type(Continue), Cleanup, Notify(Done), Return]
  }

  /** The whole Tier 1 success path. The result of sending "continue" is only
      logged, so it plays no part. */
  function TmuxTier(s: string, cmd: string): seq<Event> {
    [TmuxSend(s, cmd), Sleep(SettleSeconds), TmuxSend(s, Continue), Cleanup, Notify(DoneViaTmux), Return]
  }

  /** Everything after the gates: the short-circuit test of the session, tmux
      tier and the fall-through to the keyboard. */
  function Deliver(w: World, session: Option<string>, cmd: string): (t: seq<Event>)
    ensures |t| >= 3 && Terminal(t[|t| - 1])
  {
    if session.Some? && w.tmuxOnPath then
      var s := session.value;
      if s !in w.liveSessions then [HasSession(s)] + KeyboardTier(w, cmd)
      else if w.compactSent then [HasSession(s)] + TmuxTier(s, cmd)
      else [HasSession(s), TmuxSend(s, cmd)] + KeyboardTier(w, cmd)
    else KeyboardTier(w, cmd)
  }

  /** `main()`: the trace always ends in an `Exit` or a `Return`. */
  function Run(w: World): (t: seq<Event>)
    ensures |t| >= 2 && Terminal(t[|t| - 1])
  {
    match CheckInstructionsFile(w.instructionsPresent, w.instructionsAge)
    case Abort(n) => [Notify(n), Exit(1)]
    case Pass(_) =>
      match ReadInstructions(w.instructionsText)
      case Abort(n) => [Notify(n), Exit(1)]
      case Pass(instructions) =>
        Deliver(w, ReadTmuxSession(w.sessionFilePresent, w.sessionText), CompactCommand(instructions))
  }

  /* Reference predicates over the world, stated without the trace. */

  /** Both gates pass: a fresh instructions file holding more than whitespace. */
  predicate Ready(w: World) {
    w.instructionsPresent && w.instructionsAge <= MaxAgeSeconds && !AllSpace(w.instructionsText)
  }

  /** The session file names a session and tmux is there to ask about it. */
  predicate AsksTmux(w: World) {
    w.sessionFilePresent && !AllSpace(w.sessionText) && w.tmuxOnPath
  }

  /** Tier 1 is tried: the session named in the file is live. */
  predicate TmuxEligible(w: World) {
    AsksTmux(w) && Strip(w.sessionText) in w.liveSessions
  }

  /** Tier 1 delivers the command. */
  predicate TmuxDelivers(w: World) {
    TmuxEligible(w) && w.compactSent
  }

  /** The tmux steps taken before the keyboard takes over: the session is
      asked about when one is named and tmux is there, and the command is
      sent when that session is live. */
  function Attempts(w: World, cmd: string): seq<Event> {
    if AsksTmux(w) then
      [HasSession(Strip(w.sessionText))] + (if TmuxEligible(w) then [TmuxSend(Strip(w.sessionText), cmd)] else [])
    else []
  }

  /* Observations of a trace. */

  /** The exit status of the process: 1 after `sys.exit(1)`, 0 after a return. */
  function Status(t: seq<Event>): int {
    if t != [] && t[|t| - 1].Exit? then t[|t| - 1].code else 0
  }

  predicate Sends(t: seq<Event>) {
    exists i :: 0 <= i < |t| && t[i].TmuxSend?
  }

  predicate Types(t: seq<Event>) {
    exists i :: 0 <= i < |t| && t[i].Type?
  }

  predicate Asks(t: seq<Event>) {
    exists i :: 0 <= i < |t| && t[i].HasSession?
  }

  /** An event that acts on tmux, the keyboard, the clock or the files. */
  predicate Effect(e: Event) {
    e.HasSession? || e.TmuxSend? || e.Type? || e.Sleep? || e.Cleanup?
  }

  /** The keystrokes sent or attempted, through either tier, in order. A
      refused tmux send is still an attempt. */
  function Delivered(t: seq<Event>): seq<string> {
    if t == [] then [] else Keys(t[0]) + Delivered(t[1..])
  }

  /** The keystrokes a single event sends. */
  function Keys(e: Event): seq<string> {
    match e
    case TmuxSend(_, k) => [k]
    case Type(k) => [k]
    case _ => []
  }
}
