/**
  The validation gates of plugins/smart-compact/scripts/auto-compact.py:
  `check_instructions_file`, `read_instructions` and `read_tmux_session`.
  The file system is not modelled: each gate is handed what it would have
  observed (whether a file exists, its age, its text).
 */
module Gates {
  import opened PyText

  /** `MAX_AGE_SECONDS`: instructions older than ten minutes are stale. */
  const MaxAgeSeconds: int := 600

  /** The notifications the script raises through `show_notification`, all
      under the title "Smart Compact". Each constructor's comment gives the
      text shown. */
  datatype Notice =
      /** "No instructions file found. Run /smart-compact first." */
    | NoInstructions
      /** "Instructions are stale (>10 min old). Run /smart-compact again.",
          where 10 is `MAX_AGE_SECONDS // 60`. */
    | Stale
      /** "Instructions file is empty." */
    | EmptyInstructions
      /** "Using keyboard simulation - keep terminal focused" */
    | KeyboardFallback
      /** "pyautogui not installed. Run: pip install pyautogui" */
    | PyautoguiMissing
      /** "Compact executed via tmux (background)" */
    | DoneViaTmux
      /** "Compact command executed" */
    | Done

  datatype Option<T> = None | Some(value: T)

  /** A gate either lets the run continue with a value, or stops it with a
      notification followed by `sys.exit(1)`. */
  datatype Gate<T> = Pass(value: T) | Abort(notice: Notice)

  /** `check_instructions_file()`. `ageSeconds` is the age of the file rounded
      up to a whole second, so `ageSeconds > MaxAgeSeconds` holds exactly when
      the real age `time.time() - getmtime(...)` exceeds the limit. */
  function CheckInstructionsFile(present: bool, ageSeconds: int): (g: Gate<bool>)
    ensures g.Pass? <==> present && ageSeconds <= MaxAgeSeconds
    ensures !present ==> g == Abort(NoInstructions)
    ensures present && ageSeconds > MaxAgeSeconds ==> g == Abort(Stale)
  {
    if !present then Abort(NoInstructions)
    else if ageSeconds > MaxAgeSeconds then Abort(Stale)
    else Pass(true)
  }

  /** `read_instructions()`: the stripped file text, or a stop when nothing
      but whitespace is left. */
  function ReadInstructions(text: string): (g: Gate<string>)
    ensures g.Pass? <==> !AllSpace(text)
    ensures g.Pass? ==> g.value != [] && Trimmed(text, g.value)
    ensures g.Abort? ==> g.notice == EmptyInstructions
  {
    var t := Strip(text);
    if t == [] then Abort(EmptyInstructions) else Pass(t)
  }

  /** `read_tmux_session()`: the stripped session name, or None when the file
      is absent or holds only whitespace. */
  function ReadTmuxSession(present: bool, text: string): (r: Option<string>)
    ensures r.Some? <==> present && !AllSpace(text)
    ensures r.Some? ==> r.value != [] && Trimmed(text, r.value)
  {
    if !present then None
    else
      var t := Strip(text);
      if t == [] then None else Some(t)
  }
}
