/**
  What a run of `main()` in plugins/smart-compact/scripts/auto-compact.py
  guarantees, stated against the world it observes rather than against the
  shape of the code: gate order, tier selection, the fall-back, and that the
  temp files are removed only when a command went through.

  Each guarantee about delivery is first proved of `Deliver` for an
  arbitrary session and command, then carried over to `Run`; the gate
  guarantees are proved of `Run` directly.
 */
module Guarantees {
  import opened PyText
  import opened Sanitize
  import opened Gates
  import opened Dispatch

  /** The session `Deliver` is handed is live, so Tier 1 is tried. */
  predicate Live(w: World, session: Option<string>) {
    session.Some? && w.tmuxOnPath && session.value in w.liveSessions
  }

  /* Connecting `Run` to `Deliver`. */

  /** Past the gates, `main()` delivers "/compact " and the sanitised text of
      the instructions file; stripping first makes no difference. */
  lemma RunDelivers(w: World)
    requires Ready(w)
    ensures Run(w) == Deliver(w, ReadTmuxSession(w.sessionFilePresent, w.sessionText),
                             CompactPrefix + Escape(w.instructionsText))
  {
    EscapeStrip(w.instructionsText);
  }

  /** A failed gate yields its notification, then `sys.exit(1)`. */
  lemma RunStops(w: World)
    requires !Ready(w)
    ensures |Run(w)| == 2 && Run(w)[1] == Exit(1)
    ensures Run(w)[0] == Notify(if !w.instructionsPresent then NoInstructions
                                else if w.instructionsAge > MaxAgeSeconds then Stale
                                else EmptyInstructions)
  {
  }

  /** The session from the file, if any, is the stripped file text. */
  lemma SessionNamed(w: World)
    ensures ReadTmuxSession(w.sessionFilePresent, w.sessionText).Some? && w.tmuxOnPath <==> AsksTmux(w)
    ensures Live(w, ReadTmuxSession(w.sessionFilePresent, w.sessionText)) <==> TmuxEligible(w)
    ensures ReadTmuxSession(w.sessionFilePresent, w.sessionText).Some? ==>
              ReadTmuxSession(w.sessionFilePresent, w.sessionText).value == Strip(w.sessionText)
  {
  }

  /* Facts about `Deliver` for any session and command. */

  lemma DeliverAsks(w: World, ses: Option<string>, cmd: string)
    ensures Asks(Deliver(w, ses, cmd)) <==> ses.Some? && w.tmuxOnPath
    ensures forall i :: 0 <= i < |Deliver(w, ses, cmd)| && Deliver(w, ses, cmd)[i].HasSession? ==>
              i == 0 && ses.Some? && Deliver(w, ses, cmd)[i].session == ses.value
  {
    if ses.Some? && w.tmuxOnPath {
      assert Deliver(w, ses, cmd)[0].HasSession?;
    }
  }

  lemma DeliverSends(w: World, ses: Option<string>, cmd: string)
    ensures Sends(Deliver(w, ses, cmd)) <==> Live(w, ses)
    ensures forall i :: 0 <= i < |Deliver(w, ses, cmd)| && Deliver(w, ses, cmd)[i].TmuxSend? ==>
              ses.Some? && Deliver(w, ses, cmd)[i].session == ses.value
  {
    if Live(w, ses) {
      assert Deliver(w, ses, cmd)[1].TmuxSend?;
    }
  }

  lemma DeliverTypes(w: World, ses: Option<string>, cmd: string)
    ensures Types(Deliver(w, ses, cmd)) <==> !(Live(w, ses) && w.compactSent) && w.pyautoguiInstalled
    ensures forall i, j :: 0 <= i < |Deliver(w, ses, cmd)| && 0 <= j < |Deliver(w, ses, cmd)| &&
              Deliver(w, ses, cmd)[i].TmuxSend? && Deliver(w, ses, cmd)[j].Type?
              ==> i < j
  {
    var t := Deliver(w, ses, cmd);
    if !(Live(w, ses) && w.compactSent) && w.pyautoguiInstalled {
      assert t[|t| - 4].Type?;
    }
  }

  lemma DeliverTmuxSuccess(w: World, ses: Option<string>, cmd: string)
    requires Live(w, ses) && w.compactSent
    ensures Deliver(w, ses, cmd) == [HasSession(ses.value), TmuxSend(ses.value, cmd), Sleep(6),
                                     TmuxSend(ses.value, Continue), Cleanup, Notify(DoneViaTmux), Return]
  {
  }

  /** With pyautogui, the keyboard tier types both commands with the pause
      between, cleans up and reports success. */
  lemma KeyboardTyped(w: World, cmd: string)
    requires w.pyautoguiInstalled
    ensures KeyboardTier(w, cmd) == [Notify(KeyboardFallback), Type(cmd), Sleep(6), Type(Continue),
                                     Cleanup, Notify(Done), Return]
  {
  }

  /** Without pyautogui, the keyboard tier stops with exit status 1. */
  lemma KeyboardStops(w: World, cmd: string)
    requires !w.pyautoguiInstalled
    ensures KeyboardTier(w, cmd) == [Notify(KeyboardFallback), Notify(PyautoguiMissing), Exit(1)]
  {
  }

  lemma DeliverIgnoresContinue(w: World, sent: bool, ses: Option<string>, cmd: string)
    ensures Deliver(w.(continueSent := sent), ses, cmd) == Deliver(w, ses, cmd)
  {
    assert KeyboardTier(w.(continueSent := sent), cmd) == KeyboardTier(w, cmd);
  }

  lemma DeliverOutcome(w: World, ses: Option<string>, cmd: string)
    ensures Status(Deliver(w, ses, cmd)) == 1 <==> !(Live(w, ses) && w.compactSent) && !w.pyautoguiInstalled
    ensures Status(Deliver(w, ses, cmd)) == 0 <==> Deliver(w, ses, cmd)[|Deliver(w, ses, cmd)| - 1] == Return
    ensures Cleanup in Deliver(w, ses, cmd) <==> Status(Deliver(w, ses, cmd)) == 0
    ensures Cleanup in Deliver(w, ses, cmd) ==> Deliver(w, ses, cmd)[|Deliver(w, ses, cmd)| - 3] == Cleanup
  {
  }

  lemma DeliverEndsOnce(w: World, ses: Option<string>, cmd: string)
    ensures forall i :: 0 <= i < |Deliver(w, ses, cmd)| - 1 ==> !Terminal(Deliver(w, ses, cmd)[i])
    ensures Notify(NoInstructions) !in Deliver(w, ses, cmd)
    ensures Notify(Stale) !in Deliver(w, ses, cmd)
  {
  }

  lemma {:induction false} DeliveredAppend(a: seq<Event>, b: seq<Event>)
    ensures Delivered(a + b) == Delivered(a) + Delivered(b)
    decreases |a|
  {
    if a != [] {
      assert (a + b)[0] == a[0];
      assert (a + b)[1..] == a[1..] + b;
      DeliveredAppend(a[1..], b);
      calc {
        Delivered(a + b);
        Keys(a[0]) + Delivered(a[1..] + b);
        Keys(a[0]) + (Delivered(a[1..]) + Delivered(b));
        (Keys(a[0]) + Delivered(a[1..])) + Delivered(b);
      }
    } else {
      assert a + b == b;
    }
  }

  lemma DeliveredCons(e: Event, t: seq<Event>)
    ensures Delivered([e] + t) == Keys(e) + Delivered(t)
  {
    assert ([e] + t)[1..] == t;
  }

  lemma DeliveredOne(e: Event)
    ensures Delivered([e]) == Keys(e)
  {
    assert [e][1..] == [];
  }

  /** Closing events send no keys. */
  lemma DeliveredClosing(n: Notice, last: Event)
    requires last.Return? || last.Exit?
    ensures Delivered([Cleanup, Notify(n), last]) == []
    ensures Delivered([Notify(n), last]) == []
  {
    DeliveredOne(last);
    DeliveredCons(Notify(n), [last]);
    assert [Cleanup, Notify(n), last] == [Cleanup] + [Notify(n), last];
    DeliveredCons(Cleanup, [Notify(n), last]);
  }

  /** The command, a pause, "continue", then the closing events. */
  lemma DeliveredPair(first: Event, second: Event, n: Notice)
    requires first.TmuxSend? || first.Type?
    requires second.TmuxSend? || second.Type?
    ensures Delivered([first, Sleep(6), second, Cleanup, Notify(n), Return]) == [first.keys, second.keys]
  {
    var r := [Cleanup, Notify(n), Return];
    DeliveredClosing(n, Return);
    DeliveredCons(second, r);
    DeliveredCons(Sleep(6), [second] + r);
    DeliveredCons(first, [Sleep(6)] + ([second] + r));
    assert [first, Sleep(6), second, Cleanup, Notify(n), Return] == [first] + ([Sleep(6)] + ([second] + r));
  }

  lemma DeliveredKeyboardTier(w: World, cmd: string)
    ensures Delivered(KeyboardTier(w, cmd)) == if w.pyautoguiInstalled then [cmd, Continue] else []
  {
    var k := KeyboardTier(w, cmd);
    DeliveredCons(Notify(KeyboardFallback), k[1..]);
    assert k == [Notify(KeyboardFallback)] + k[1..];
    if w.pyautoguiInstalled {
      DeliveredPair(Type(cmd), Type(Continue), Done);
    } else {
      DeliveredClosing(PyautoguiMissing, Exit(1));
    }
  }

  lemma DeliveredTmuxTier(s: string, cmd: string)
    ensures Delivered(TmuxTier(s, cmd)) == [cmd, Continue]
  {
    DeliveredPair(TmuxSend(s, cmd), TmuxSend(s, Continue), DoneViaTmux);
  }

  lemma DeliverKeys(w: World, ses: Option<string>, cmd: string)
    ensures Live(w, ses) && w.compactSent ==> Delivered(Deliver(w, ses, cmd)) == [cmd, Continue]
    ensures Live(w, ses) && !w.compactSent ==>
              Delivered(Deliver(w, ses, cmd)) == [cmd] + (if w.pyautoguiInstalled then [cmd, Continue] else [])
    ensures !Live(w, ses) ==>
              Delivered(Deliver(w, ses, cmd)) == if w.pyautoguiInstalled then [cmd, Continue] else []
  {
    DeliveredKeyboardTier(w, cmd);
    if ses.Some? && w.tmuxOnPath {
      var s, k := ses.value, KeyboardTier(w, cmd);
      if s !in w.liveSessions {
        DeliveredCons(HasSession(s), k);
      } else if w.compactSent {
        DeliveredTmuxTier(s, cmd);
        DeliveredCons(HasSession(s), TmuxTier(s, cmd));
      } else {
        DeliveredOne(TmuxSend(s, cmd));
        DeliveredCons(HasSession(s), [TmuxSend(s, cmd)]);
        assert [HasSession(s)] + [TmuxSend(s, cmd)] == [HasSession(s), TmuxSend(s, cmd)];
        DeliveredAppend([HasSession(s), TmuxSend(s, cmd)], k);
      }
    }
  }

  /* The gates. */

  /** Without an instructions file the run notifies and exits 1 at once. */
  lemma MissingInstructionsStop(w: World)
    requires !w.instructionsPresent
    ensures Run(w) == [Notify(NoInstructions), Exit(1)]
  {
  }

  /** Instructions older than the limit stop the run the same way. */
  lemma StaleInstructionsStop(w: World)
    requires w.instructionsPresent && w.instructionsAge > MaxAgeSeconds
    ensures Run(w) == [Notify(Stale), Exit(1)]
  {
  }

  /** The age test is strict: a file exactly `MaxAgeSeconds` old is fresh. */
  lemma FreshInstructionsPass(w: World)
    requires w.instructionsPresent && w.instructionsAge <= MaxAgeSeconds
    ensures Notify(NoInstructions) !in Run(w) && Notify(Stale) !in Run(w)
  {
    if Ready(w) {
      RunDelivers(w);
      DeliverEndsOnce(w, ReadTmuxSession(w.sessionFilePresent, w.sessionText),
                      CompactPrefix + Escape(w.instructionsText));
    } else {
      RunStops(w);
    }
  }

  /** Instructions that strip to nothing stop the run after the age test. */
  lemma EmptyInstructionsStop(w: World)
    requires w.instructionsPresent && w.instructionsAge <= MaxAgeSeconds
    requires AllSpace(w.instructionsText)
    ensures Run(w) == [Notify(EmptyInstructions), Exit(1)]
  {
  }

  /** A failed gate is exactly a two-event run, and it touches nothing: no
      tmux, no keystrokes, no pause, no cleanup. */
  lemma GateFailureIsInert(w: World)
    ensures !Ready(w) <==> |Run(w)| == 2
    ensures !Ready(w) ==> Status(Run(w)) == 1 && forall i :: 0 <= i < |Run(w)| ==> !Effect(Run(w)[i])
  {
    if !Ready(w) {
      RunStops(w);
    } else {
      RunDelivers(w);
    }
  }

  /** Every run ends in exactly one `Exit` or `Return`, and nothing follows it. */
  lemma RunEndsOnce(w: World)
    ensures Terminal(Run(w)[|Run(w)| - 1])
    ensures forall i :: 0 <= i < |Run(w)| - 1 ==> !Terminal(Run(w)[i])
  {
    if Ready(w) {
      RunDelivers(w);
      DeliverEndsOnce(w, ReadTmuxSession(w.sessionFilePresent, w.sessionText),
                      CompactPrefix + Escape(w.instructionsText));
    } else {
      RunStops(w);
    }
  }

  /* Tier selection. */

  /** tmux is asked about the session exactly when the gates pass, the
      session file names one and tmux is on the PATH; it is asked first, and
      about the stripped name. */
  lemma SessionQueriedOnlyWhenNamed(w: World)
    ensures Asks(Run(w)) <==> Ready(w) && AsksTmux(w)
    ensures forall i :: 0 <= i < |Run(w)| && Run(w)[i].HasSession? ==>
              i == 0 && Run(w)[i].session == Strip(w.sessionText) && Run(w)[i].session != []
  {
    if Ready(w) {
      RunDelivers(w);
      SessionNamed(w);
      DeliverAsks(w, ReadTmuxSession(w.sessionFilePresent, w.sessionText),
                  CompactPrefix + Escape(w.instructionsText));
    } else {
      RunStops(w);
    }
  }

  /** Tier 1 is tried exactly when the named session is live, and only that
      session is sent keys. */
  lemma TmuxTriedWhenLive(w: World)
    ensures Sends(Run(w)) <==> Ready(w) && TmuxEligible(w)
    ensures forall i :: 0 <= i < |Run(w)| && Run(w)[i].TmuxSend? ==>
              Run(w)[i].session == Strip(w.sessionText) && Run(w)[i].session != []
  {
    if Ready(w) {
      RunDelivers(w);
      SessionNamed(w);
      DeliverSends(w, ReadTmuxSession(w.sessionFilePresent, w.sessionText),
                   CompactPrefix + Escape(w.instructionsText));
    } else {
      RunStops(w);
    }
  }

  /** When tmux takes the command, the whole run is: ask, send, wait six
      seconds, send "continue", clean up, notify, return. Nothing is typed. */
  lemma TmuxSuccessTrace(w: World)
    requires Ready(w) && TmuxDelivers(w)
    ensures Run(w) == [HasSession(Strip(w.sessionText)),
                       TmuxSend(Strip(w.sessionText), CompactPrefix + Escape(w.instructionsText)),
                       Sleep(6),
                       TmuxSend(Strip(w.sessionText), Continue),
                       Cleanup,
                       Notify(DoneViaTmux),
                       Return]
    ensures !Types(Run(w))
  {
    var ses := ReadTmuxSession(w.sessionFilePresent, w.sessionText);
    var cmd := CompactPrefix + Escape(w.instructionsText);
    RunDelivers(w);
    SessionNamed(w);
    DeliverTmuxSuccess(w, ses, cmd);
    DeliverTypes(w, ses, cmd);
  }

  /** The keyboard is used exactly when tmux did not take the command and
      pyautogui is installed. */
  lemma KeyboardOnlyAsFallback(w: World)
    ensures Types(Run(w)) <==> Ready(w) && !TmuxDelivers(w) && w.pyautoguiInstalled
  {
    if Ready(w) {
      var ses := ReadTmuxSession(w.sessionFilePresent, w.sessionText);
      RunDelivers(w);
      DeliverTypes(w, ses, CompactPrefix + Escape(w.instructionsText));
      assert Live(w, ses) <==> TmuxEligible(w) by {
        SessionNamed(w);
      }
    } else {
      RunStops(w);
    }
  }

  /** Nothing is typed before the last attempt through tmux. */
  lemma TmuxBeforeKeyboard(w: World)
    ensures forall i, j :: 0 <= i < |Run(w)| && 0 <= j < |Run(w)| &&
              Run(w)[i].TmuxSend? && Run(w)[j].Type?
              ==> i < j
  {
    if Ready(w) {
      RunDelivers(w);
      DeliverTypes(w, ReadTmuxSession(w.sessionFilePresent, w.sessionText),
                   CompactPrefix + Escape(w.instructionsText));
    } else {
      RunStops(w);
    }
  }

  /** Without tmux delivery, `Deliver` is the tmux attempts followed by the
      keyboard tier. */
  lemma FallbackShape(w: World, ses: Option<string>, cmd: string)
    requires ses.Some? && w.tmuxOnPath <==> AsksTmux(w)
    requires Live(w, ses) <==> TmuxEligible(w)
    requires ses.Some? ==> ses.value == Strip(w.sessionText)
    requires !(Live(w, ses) && w.compactSent)
    ensures Deliver(w, ses, cmd) == Attempts(w, cmd) + KeyboardTier(w, cmd)
  {
  }

  /** Without tmux delivery, the whole run is: the tmux attempts, then the
      fall-back notice, both commands typed with the pause between, the files
      cleaned up and the closing notice. */
  lemma FallbackTyped(w: World)
    requires Ready(w) && !TmuxDelivers(w) && w.pyautoguiInstalled
    ensures Run(w) == Attempts(w, CompactPrefix + Escape(w.instructionsText))
                      + [Notify(KeyboardFallback), Type(CompactPrefix + Escape(w.instructionsText)),
                         Sleep(6), Type(Continue), Cleanup, Notify(Done), Return]
  {
    var ses := ReadTmuxSession(w.sessionFilePresent, w.sessionText);
    var cmd := CompactPrefix + Escape(w.instructionsText);
    RunDelivers(w);
    SessionNamed(w);
    FallbackShape(w, ses, cmd);
    KeyboardTyped(w, cmd);
  }

  /** Without tmux delivery and without pyautogui, the whole run is: the tmux
      attempts, the fall-back notice, the missing-pyautogui notice and exit
      status 1, with nothing typed and nothing cleaned up. */
  lemma FallbackStops(w: World)
    requires Ready(w) && !TmuxDelivers(w) && !w.pyautoguiInstalled
    ensures Run(w) == Attempts(w, CompactPrefix + Escape(w.instructionsText))
                      + [Notify(KeyboardFallback), Notify(PyautoguiMissing), Exit(1)]
  {
    var ses := ReadTmuxSession(w.sessionFilePresent, w.sessionText);
    var cmd := CompactPrefix + Escape(w.instructionsText);
    RunDelivers(w);
    SessionNamed(w);
    FallbackShape(w, ses, cmd);
    KeyboardStops(w, cmd);
  }

  /** Whether "continue" reached tmux is only logged: it changes nothing. */
  lemma ContinueResultIgnored(w: World, sent: bool)
    ensures Run(w.(continueSent := sent)) == Run(w)
  {
    var w2 := w.(continueSent := sent);
    if Ready(w) {
      RunDelivers(w);
      RunDelivers(w2);
      DeliverIgnoresContinue(w, sent, ReadTmuxSession(w.sessionFilePresent, w.sessionText),
                             CompactPrefix + Escape(w.instructionsText));
    } else {
      RunStops(w);
      RunStops(w2);
    }
  }

  /* Outcomes. */

  /** The process exits 1 exactly when a gate fails or neither tier can
      deliver; otherwise `main()` returns. The temp files are removed exactly
      on a successful run, just before the closing notification. */
  lemma ExitStatusAndCleanup(w: World)
    ensures Status(Run(w)) == 1 <==> !Ready(w) || (!TmuxDelivers(w) && !w.pyautoguiInstalled)
    ensures Status(Run(w)) == 0 <==> Run(w)[|Run(w)| - 1] == Return
    ensures Cleanup in Run(w) <==> Status(Run(w)) == 0
    ensures Cleanup in Run(w) ==> Run(w)[|Run(w)| - 3] == Cleanup
  {
    if Ready(w) {
      RunDelivers(w);
      SessionNamed(w);
      DeliverOutcome(w, ReadTmuxSession(w.sessionFilePresent, w.sessionText),
                     CompactPrefix + Escape(w.instructionsText));
    } else {
      RunStops(w);
    }
  }

  /** The keystrokes sent or attempted: "/compact " and the sanitised
      instructions, then "continue"; when tmux refused the command, it is
      typed again. */
  lemma DeliveredKeystrokes(w: World)
    ensures !Ready(w) ==> Delivered(Run(w)) == []
    ensures Ready(w) && TmuxDelivers(w) ==>
              Delivered(Run(w)) == [CompactPrefix + Escape(w.instructionsText), Continue]
    ensures Ready(w) && TmuxEligible(w) && !w.compactSent ==>
              Delivered(Run(w)) == [CompactPrefix + Escape(w.instructionsText)]
                                   + (if w.pyautoguiInstalled
                                      then [CompactPrefix + Escape(w.instructionsText), Continue] else [])
    ensures Ready(w) && !TmuxEligible(w) ==>
              Delivered(Run(w)) == if w.pyautoguiInstalled
                                   then [CompactPrefix + Escape(w.instructionsText), Continue] else []
  {
    if Ready(w) {
      RunDelivers(w);
      SessionNamed(w);
      DeliverKeys(w, ReadTmuxSession(w.sessionFilePresent, w.sessionText),
                  CompactPrefix + Escape(w.instructionsText));
    } else {
      RunStops(w);
      var t := Run(w);
      DeliveredClosing(t[0].notice, t[1]);
      assert t == [Notify(t[0].notice), t[1]];
    }
  }
}
