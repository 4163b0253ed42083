// The laws of a single input: what it changes in a controller's session, and everything it makes the daemon say. Each
// one gives exactly the inputs, by their bytes, that have the effect.

module DaemonLaws {
  import opened Bytes
  import opened Gip
  import opened EventLines
  import opened DaemonModel
  import opened DaemonInputs
  import opened DaemonInvariants
  import opened DaemonRuns
  import opened DaemonTheorems
  import opened DaemonSession
  import opened DaemonEffects

  // ---------------------------------------------------------------- a controller's session

  /** A session frame from the controller of entry `w`. */
  ghost predicate SessionFrameOf(s: State, d: Meaning, w: nat) { (d.Message? || d.Greeting?) && Entry(s, d.src) == w }

  ghost predicate AnnounceOf(s: State, d: Meaning, w: nat) {
    d.Message? && Entry(s, d.src) == w && IsAnnounce(d.gip)
  }

  ghost predicate AssociationOf(s: State, d: Meaning, w: nat) { d.Association? && Entry(s, d.src) == w }

  /** How one input moves the four flags of entry `w`. */
  ghost predicate FlagsMove(p: Peer, q: Peer, s: State, d: Meaning, w: nat) {
    && (q.handshakeDone <==> p.handshakeDone || (w <= 8 && SessionFrameOf(s, d, w)))
    && (q.initialCommandsSent <==> p.initialCommandsSent || (w <= 8 && AnnounceOf(s, d, w)))
    && (q.sessionInitialized <==> p.sessionInitialized || (w <= 8 && AnnounceOf(s, d, w)))
    && (q.fwClientAdded <==> p.fwClientAdded || (AssociationOf(s, d, w) && !p.sessionInitialized))
  }

  lemma FlagsDue(s: State, d: Meaning, w: nat)
    requires PeersOk(s) && 1 <= w < 127
    ensures FlagsMove(s.peers[w], PeersDue(s, d)[w], s, d, w)
  {
    if d.Message? || d.Greeting? || IsPairing(d) {
      WasInTable(s, d.src);
      if Entry(s, d.src) != w { UntouchedEntry(s, d, w); }
    }
  }

  lemma UntouchedEntry(s: State, d: Meaning, w: nat)
    requires PeersOk(s) && (d.Message? || d.Greeting? || IsPairing(d)) && Entry(s, d.src) != w < 128
    ensures PeersDue(s, d)[w] == s.peers[w]
  {
  }

  /** A handshake is done from the controller's first session frame on; its session is initialised, and the initial
      commands are sent, from its first announce on; the firmware knows it from its first association request before
      that on. Nothing else sets or clears any of the four. */
  lemma SessionFlags(c: Config, s: State, i: Stimulus, w: nat)
    requires Inv(s) && 1 <= w < 127
    ensures FlagsMove(s.peers[w], Step(c, s, i).peers[w], s, MeaningOf(c, i), w)
  {
    if i.UsbIn? {
      TransferLeaves(c, s, i);
      FlagsDue(s, MeaningOf(c, i), w);
    } else {
      TickIsSilent(c, s, i.now, i.efuse);
    }
  }

  // ---------------------------------------------------------------- what an input makes the daemon say

  lemma {:induction false} OnlyNone(out: seq<Output>, v: View)
    requires forall i :: 0 <= i < |out| ==> ViewOf(out[i]) != v
    ensures Only(out, v) == []
  {
    if out != [] { OnlyNone(out[..|out| - 1], v); }
  }

  lemma {:induction false} HostCommandsAre(log: seq<Output>)
    ensures HostCommands(log) == Only(log, Commands)
  {
    if log != [] { HostCommandsAre(log[..|log| - 1]); }
  }

  lemma {:induction false} EventsAreNotices(log: seq<Output>)
    ensures Only(log, Events) == Notices(EventsOf(log))
  {
    if log == [] {
      assert Notices([]) == [];
    } else {
      EventsAreNotices(log[..|log| - 1]);
      if log[|log| - 1].Notify? { NoticesPlus(EventsOf(log[..|log| - 1]), [log[|log| - 1].e]); }
    }
  }

  lemma NoticesDiffer(a: seq<Event>, b: seq<Event>)
    requires Notices(a) == Notices(b)
    ensures a == b
  {
    forall i | 0 <= i < |a| ensures a[i] == b[i] {
      assert Notices(a)[i] == Notices(b)[i];
    }
  }

  /** The log only grows, and the views of what is new extend the views of the whole. */
  lemma LogSplits(c: Config, s: State, i: Stimulus, v: View)
    requires Inv(s)
    ensures var t := Step(c, s, i);
            t.log == s.log + New(s, t) && Only(t.log, v) == Only(s.log, v) + Only(New(s, t), v)
  {
    StepCauses(c, s, i);
    OnlyPlus(s.log, New(s, Step(c, s, i)), v);
  }

  /** What is due for every input, wake-ups included, in the five views of the air, the firmware and the readers. */
  ghost predicate IsOutward(v: View) { v == Events || v == Commands || v == Acks || v == Frames || v == Clients }

  lemma WakeUpDue(c: Config, s: State, v: View)
    requires s.hostSeq + 3 < 256 && IsOutward(v)
    ensures Due(c, s, WakeUp, v) == []
  {
    assert Notices([]) == [];
  }

  lemma StepSends(c: Config, s: State, i: Stimulus, v: View)
    requires Inv(s) && IsOutward(v)
    ensures Only(New(s, Step(c, s, i)), v) == Due(c, s, MeaningOf(c, i), v)
  {
    if i.UsbIn? {
      TransferEmits(c, s, i, v);
    } else {
      TickIsSilent(c, s, i.now, i.efuse);
      OnlyNone(New(s, Step(c, s, i)), v);
      WakeUpDue(c, s, v);
    }
  }

  /** The events of one input, exactly: what its message, greeting or notice means for the slot it concerns. */
  lemma EventsOfStep(c: Config, s: State, i: Stimulus)
    requires Inv(s)
    ensures EventsOf(Step(c, s, i).log) == EventsOf(s.log) + EventsDue(s, MeaningOf(c, i))
  {
    var t, es := Step(c, s, i), EventsDue(s, MeaningOf(c, i));
    StepSends(c, s, i, Events);
    LogSplits(c, s, i, Events);
    EventsAreNotices(s.log);
    EventsAreNotices(t.log);
    NoticesPlus(EventsOf(s.log), es);
    NoticesDiffer(EventsOf(t.log), EventsOf(s.log) + es);
  }

  /** The host commands of one input: three numbered ones at the first announce of a seated controller, else none. */
  lemma CommandsOfStep(c: Config, s: State, i: Stimulus)
    requires Inv(s)
    ensures HostCommands(Step(c, s, i).log) == HostCommands(s.log) + CommandsDue(s, MeaningOf(c, i))
  {
    StepSends(c, s, i, Commands);
    LogSplits(c, s, i, Commands);
    HostCommandsAre(s.log);
    HostCommandsAre(Step(c, s, i).log);
  }

  /** One acknowledgement for every message of a seated controller that asks for one, to that controller, with its
      device, sequence number, command and length; else none. */
  lemma AcksOfStep(c: Config, s: State, i: Stimulus)
    requires Inv(s)
    ensures Only(New(s, Step(c, s, i)), Acks) == AcksDue(s, MeaningOf(c, i))
  {
    StepSends(c, s, i, Acks);
  }

  /** The firmware hears of a client at its first association request outside a session, and at no other input. */
  lemma ClientsOfStep(c: Config, s: State, i: Stimulus)
    requires Inv(s)
    ensures Only(New(s, Step(c, s, i)), Clients) == ClientsDue(s, MeaningOf(c, i))
  {
    StepSends(c, s, i, Clients);
  }

  // ---------------------------------------------------------------- the announce of a known controller

  lemma OwnEntry(s: State, k: nat, m: Mac, src: Mac, xs: seq<Mac>)
    requires Inv(s) && TableIs(s.peers, s.nextWcid, xs) && Known(s, k, m)
    ensures Entry(s, src) == k + 1 <==> src == m
  {
    FindsKnown(s, k, m, xs);
    WasInTable(s, src);
    assert k + 1 < s.nextWcid;
  }

  /** A controller's session starts at a step if and only if the step is a data frame from it to us with an announce of
      device 0 and type request; and then its three numbered commands go out, unless they have been sent. */
  lemma AnnounceStartsSession(c: Config, s: State, i: Stimulus, k: nat, m: Mac, xs: seq<Mac>)
    requires Inv(s) && TableIs(s.peers, s.nextWcid, xs) && Known(s, k, m) && !s.peers[k + 1].sessionInitialized
    ensures var t, d := Step(c, s, i), MeaningOf(c, i);
            && (t.peers[k + 1].sessionInitialized <==> d.Message? && d.src == m && IsAnnounce(d.gip))
            && (t.peers[k + 1].sessionInitialized ==>
                  s.hostSeq <= 24 &&
                  HostCommands(t.log) ==
                  HostCommands(s.log)
                  + if s.peers[k + 1].initialCommandsSent then [] else InitialCommands(k + 1, m, s.hostSeq))
  {
    var d := MeaningOf(c, i);
    SessionFlags(c, s, i, k + 1);
    CommandsOfStep(c, s, i);
    if d.Message? {
      OwnEntry(s, k, m, d.src, xs);
      WasInTable(s, d.src);
    }
  }
}
