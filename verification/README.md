# Smart Compact auto-compact dispatcher, modelled in Dafny

`plugins/smart-compact/scripts/auto-compact.py` is the script that runs a
generated `/compact` command inside a Claude terminal session. It checks that
the instructions file exists and is at most ten minutes old. It reads and strips
the file, then sanitises the text into one line with `escape_instructions`.
Delivery first tries tmux (Tier 1), if a session name was recorded and that
session is live. Otherwise it falls back to simulated keystrokes with pyautogui
(Tier 2). It pauses six seconds, sends `continue`, deletes the two temp files
and shows a notification.

The model has five modules:

- `PyText` (`py_text.dfy`) covers the parts of Python's `str` the script relies on:
  - `str.isspace()`: the 29 code points CPython treats as whitespace;
  - `strip()`, `split()` with no separator, and `' '.join(...)`.

  Each is a pure function with a declarative partner. `Trimmed` describes what
  `Strip` returns. `IsWord` and `Visible` say what the pieces of `Split` look
  like. `SplitEmpty`, `SplitSkipsSpace` and `SplitConsWord` determine `Split`
  completely: all-whitespace text, a leading whitespace character and a
  leading word. `Split` is the inverse of `Join`.
- `Sanitize` (`sanitize.dfy`) covers `escape_instructions`. `OneLine` is the
  shape of its result: plain spaces only, never two in a row, none at either
  end. The lemmas prove that it keeps the words and every other character,
  that it is idempotent, and that its result is the only one-line string with
  those words.
- `Gates` (`gates.dfy`) covers `check_instructions_file`, `read_instructions`
  and `read_tmux_session`. Each takes what the script would observe.
  `CheckInstructionsFile` and `ReadInstructions` return `Pass(value)` or
  `Abort(notice)`. `ReadTmuxSession` returns `Some(name)` or `None` and never
  stops the run. The seven notifications are a
  datatype. Their texts are doc comments on its constructors.
- `Dispatch` (`dispatch.dfy`) covers `main()` as a pure function `Run` from a
  `World` to a trace of events. The `World` holds:
  - whether each file exists, and the file texts;
  - the age of the instructions file;
  - whether tmux is on the PATH, and which sessions `tmux has-session` accepts;
  - the result of each `send_via_tmux` call;
  - whether pyautogui imports.

  The events are `Notify`, `Exit`, `HasSession`, `TmuxSend`, `Type`, `Sleep`,
  `Cleanup` and `Return`.
- `Guarantees` (`guarantees.dfy`) states what a run guarantees in terms of the
  world rather than the code: gate order, tier selection, the fall-back, exit
  status, cleanup, and the exact keystrokes sent to the session. Each fact
  about delivery is first proved of `Deliver` (everything after the gates)
  and then carried over to `Run`. The facts about the gates are proved of
  `Run` directly.

A missing pyautogui ends the run with exit status 1 (lines 139-144), after the
fall-back notice and with no cleanup.

## Model

| member | source | states |
|---|---|---|
| PyText.Strip | plugins/smart-compact/scripts/auto-compact.py:74 | `strip()` returns a slice of the text with only whitespace before and after it and no whitespace at either end; the result is empty exactly when the text is all whitespace |
| PyText.StripUnique | plugins/smart-compact/scripts/auto-compact.py:89 | that description of `strip()` has exactly one solution, so it pins the stripped text down completely |
| PyText.SplitWords | plugins/smart-compact/scripts/auto-compact.py:99 | every piece `split()` returns is a non-empty run of non-whitespace characters |
| PyText.SplitEmpty | plugins/smart-compact/scripts/auto-compact.py:99 | `split()` returns no words exactly when the text is all whitespace |
| PyText.SplitSkipsSpace | plugins/smart-compact/scripts/auto-compact.py:99 | a leading whitespace character does not change what `split()` returns |
| PyText.SplitConsWord | plugins/smart-compact/scripts/auto-compact.py:99 | a word followed by whitespace or by the end of the text is the first piece `split()` returns, and the rest is split on its own |
| PyText.SplitKeepsText | plugins/smart-compact/scripts/auto-compact.py:99 | concatenating the words of `split()` gives the non-whitespace characters of the text, in order: nothing but whitespace is lost |
| PyText.SplitJoin | plugins/smart-compact/scripts/auto-compact.py:99 | `split()` undoes `' '.join(...)` on any sequence of words |
| PyText.SplitStrip | plugins/smart-compact/scripts/auto-compact.py:74 | stripping the text first does not change the words `split()` finds |
| Sanitize.ReplaceNewlines | plugins/smart-compact/scripts/auto-compact.py:96-97 | `replace('\n', ' ')` keeps the length, turns each newline into a plain space and leaves every other character unchanged, other whitespace included; so no newline remains and whitespace stays where it was |
| Sanitize.SplitSameText | plugins/smart-compact/scripts/auto-compact.py:97-99 | two texts with whitespace in the same places and the same other characters split into the same words, so replacing newlines does not change the words |
| Sanitize.JoinOneLine | plugins/smart-compact/scripts/auto-compact.py:99 | words joined with single spaces form a one-line string |
| Sanitize.JoinSplitOneLine | plugins/smart-compact/scripts/auto-compact.py:99 | a one-line string is rebuilt exactly by joining its words |
| Sanitize.Escape | plugins/smart-compact/scripts/auto-compact.py:94-100 | the result is one line: only plain spaces, no two adjacent, none leading or trailing; no newline; it has the same words as the input |
| Sanitize.EscapeIdempotent | plugins/smart-compact/scripts/auto-compact.py:94-100 | sanitising an already sanitised text changes nothing |
| Sanitize.EscapeFixedPoints | plugins/smart-compact/scripts/auto-compact.py:94-100 | a text is left unchanged by sanitising if and only if it is already one line |
| Sanitize.EscapeUnique | plugins/smart-compact/scripts/auto-compact.py:96-99 | any one-line string with the same words as the input equals the sanitised text: each whitespace run, newlines included, becomes one space |
| Sanitize.EscapeEmpty | plugins/smart-compact/scripts/auto-compact.py:94-100 | the result is "" exactly when the input is all whitespace |
| Sanitize.EscapeKeepsText | plugins/smart-compact/scripts/auto-compact.py:94-100 | the non-whitespace characters of the result are those of the input, in order |
| Sanitize.EscapeStrip | plugins/smart-compact/scripts/auto-compact.py:174-175 | sanitising the stripped text, as `main()` does, gives the same as sanitising the raw text |
| Gates.CheckInstructionsFile | plugins/smart-compact/scripts/auto-compact.py:56-68 | passes exactly when the file exists and its age is at most 600 seconds; a missing file aborts with the "no instructions" notice, an older file with the "stale" notice |
| Gates.ReadInstructions | plugins/smart-compact/scripts/auto-compact.py:71-80 | passes exactly when the text is not all whitespace, with a non-empty value that is the stripped text; otherwise aborts with the "empty" notice |
| Gates.ReadTmuxSession | plugins/smart-compact/scripts/auto-compact.py:83-91 | gives a session exactly when the file exists and is not all whitespace, and that session is the non-empty stripped text |
| Dispatch.CompactCommand | plugins/smart-compact/scripts/auto-compact.py:175-176 | the command is "/compact " followed by a one-line argument with the same words as the instructions |
| Dispatch.KeyboardTier | plugins/smart-compact/scripts/auto-compact.py:202-216 | the fall-back starts with its warning notice and ends in `Exit` or `Return` |
| Dispatch.Deliver | plugins/smart-compact/scripts/auto-compact.py:179-216 | delivery always ends in `Exit` or `Return` |
| Dispatch.Run | plugins/smart-compact/scripts/auto-compact.py:166-216 | every run has at least two events and ends in `Exit` or `Return` |
| Guarantees.RunDelivers | plugins/smart-compact/scripts/auto-compact.py:171-179 | once both gates pass, the run is the delivery of "/compact " plus the sanitised raw file text to the session read from the session file |
| Guarantees.RunStops | plugins/smart-compact/scripts/auto-compact.py:56-80 | when a gate fails, the run is the notice of the first failing gate followed by `Exit(1)` |
| Guarantees.MissingInstructionsStop | plugins/smart-compact/scripts/auto-compact.py:58-60 | a missing instructions file gives exactly the "no instructions" notice, then `Exit(1)` |
| Guarantees.StaleInstructionsStop | plugins/smart-compact/scripts/auto-compact.py:63-66 | a file older than 600 seconds gives exactly the "stale" notice, then `Exit(1)` |
| Guarantees.FreshInstructionsPass | plugins/smart-compact/scripts/auto-compact.py:63-68 | the age test is strict: a file at most 600 seconds old, 600 included, never draws the missing or stale notice |
| Guarantees.EmptyInstructionsStop | plugins/smart-compact/scripts/auto-compact.py:73-78 | a fresh file holding only whitespace gives exactly the "empty" notice, then `Exit(1)` |
| Guarantees.GateFailureIsInert | plugins/smart-compact/scripts/auto-compact.py:170-176 | a gate fails exactly when the run has two events; such a run exits 1 and never asks tmux, sends, types, sleeps or cleans up |
| Guarantees.RunEndsOnce | plugins/smart-compact/scripts/auto-compact.py:166-216 | every run ends in exactly one `Exit` or `Return`, and nothing follows it |
| Guarantees.SessionQueriedOnlyWhenNamed | plugins/smart-compact/scripts/auto-compact.py:179-181 | `tmux has-session` is run exactly when the gates pass, the session file names a session and tmux is on the PATH; it is the first event, about the non-empty stripped name |
| Guarantees.TmuxTriedWhenLive | plugins/smart-compact/scripts/auto-compact.py:181-185 | keys are sent through tmux exactly when the named session is live, and only to that session |
| Guarantees.TmuxSuccessTrace | plugins/smart-compact/scripts/auto-compact.py:181-198 | when tmux takes the command, the run is exactly: ask, send the command, sleep 6, send "continue", clean up, notify, return; nothing is typed |
| Guarantees.KeyboardOnlyAsFallback | plugins/smart-compact/scripts/auto-compact.py:181-206 | keystrokes are simulated exactly when the gates pass, tmux did not take the command, and pyautogui is installed |
| Guarantees.TmuxBeforeKeyboard | plugins/smart-compact/scripts/auto-compact.py:181-206 | every tmux send comes before every typed command |
| Guarantees.FallbackTyped | plugins/smart-compact/scripts/auto-compact.py:176-216 | without tmux delivery and with pyautogui, the whole run is the tmux attempts (the session query when a session is named and tmux is on `PATH`; the refused send when that session is live), then the warning notice, type the command, sleep 6, type "continue", clean up, notify, return |
| Guarantees.FallbackStops | plugins/smart-compact/scripts/auto-compact.py:178-206 | without tmux delivery and without pyautogui, the whole run is the tmux attempts, then the warning notice, then the "pyautogui not installed" notice and `Exit(1)` from the first keyboard send (lines 139-144), with nothing typed or cleaned up |
| Guarantees.ContinueResultIgnored | plugins/smart-compact/scripts/auto-compact.py:192-198 | whether "continue" reached tmux makes no difference to the run |
| Guarantees.ExitStatusAndCleanup | plugins/smart-compact/scripts/auto-compact.py:157-216 | the process exits 1 exactly when a gate fails or neither tier can deliver, and otherwise returns; the temp files are removed exactly on a normal return, just before the closing notice |
| Guarantees.DeliveredKeystrokes | plugins/smart-compact/scripts/auto-compact.py:176-212 | the keystrokes sent or attempted, in order, per case: none after a failed gate; the command then "continue" through tmux; after a refused tmux send, the command again by keyboard; without a live session, the command then "continue" by keyboard when pyautogui is there, and nothing otherwise |

## Left out

- `get_platform` and `show_notification`: platform detection and the calls to
  osascript, win10toast and notify-send are foreign calls. Each notification is
  a `Notify` event carrying one of seven notices; the text of each is given in
  the comment on its `Gates.Notice` constructor. The shell quoting of those
  texts is not modelled.
- Console `print` output is not modelled. Neither is the `print` of a failed
  `send_via_tmux`.
- `tmux_available` is `shutil.which('tmux')` (line 105), a lookup on `PATH`;
  `tmuxOnPath` in the `World` is its result. `tmux_session_exists` and
  `send_via_tmux` run subprocesses. Their results are booleans in the `World`,
  and a timeout or exception counts as `false`. Which session tmux accepts for a `-t` target is a set of names:
  tmux's own prefix and pattern matching is not modelled.
- `send_via_pyautogui`: the import is one boolean, and a failed import stops
  the first call, before anything is typed. One `Type` event stands for
  `pyautogui.write` followed by `press('enter')`. The 0.3 s and 0.1 s pauses
  and the 0.01 s typing interval are not modelled. `Sleep(6)` is an event with
  no clock behind it.
- Guarantees.ExitStatusAndCleanup: its "exits 1 exactly when" holds only if
  the `ImportError` that `!pyautoguiInstalled` stands for is the only way
  pyautogui fails. Line 141 catches only `ImportError`. Another import failure,
  such as no X display, ends the script with a traceback and status 1. So does
  an exception from `pyautogui.write` or `press` (lines 150-154), such as the
  fail-safe. In both cases there is no notice and no cleanup. The model does
  not represent these failures, and neither do `Guarantees.FallbackTyped`
  and `Guarantees.KeyboardOnlyAsFallback`.
- `time.time() - os.path.getmtime(...)` is a float. The model's age is an
  integer number of seconds, rounded up, so `age > 600` matches the script's
  test exactly. A modification time in the future gives a negative age, which
  passes, as in the script.
- File reading is not modelled. A file that vanishes between `exists` and
  `open`, or fails to decode, raises an exception in the script; the model
  only sees a present or absent file and its decoded text.
- `cleanup` is one `Cleanup` event. Its two `os.remove` calls swallow
  `OSError`, so the outcome for each file is not tracked.
- A worked example is not evaluated as a ground instance:
  "Focus on\nthe auth module   please" becoming
  "Focus on the auth module please". `Sanitize.EscapeUnique` reduces it to two
  facts about the literal strings: the output is one line, and both have the
  same words.
- Dispatch.Run: its own contract only says that the trace ends in `Exit` or
  `Return`. Exactly-once termination and the tier behaviour are stated by the
  `Guarantees` lemmas.
- Dispatch.Deliver: likewise, its own contract states only the trace's
  shape. The whole trace of each case is stated by
  `Guarantees.TmuxSuccessTrace`, `Guarantees.FallbackTyped` and
  `Guarantees.FallbackStops`. The fall-back traces start with
  `Dispatch.Attempts`, the tmux steps taken before the keyboard.
- Dispatch.KeyboardTier: its own contract states only the leading fall-back
  notice and a terminal last event. Its whole output is stated by
  `Guarantees.KeyboardTyped` and `Guarantees.KeyboardStops`. Within a run, it
  is stated by `Guarantees.FallbackTyped` and `Guarantees.FallbackStops`.
