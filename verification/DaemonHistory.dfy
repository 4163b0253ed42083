// What a run has done to each controller's session, in terms of the run's inputs alone.

module DaemonHistory {
  import opened Bytes
  import opened EventLines
  import opened DaemonModel
  import opened DaemonInputs
  import opened DaemonInvariants
  import opened DaemonRuns
  import opened DaemonTheorems
  import opened DaemonEffects
  import opened DaemonLaws

  // ---------------------------------------------------------------- places

  /** The place of `m` in a list, counted from 1; one past the end when it is not there. */
  ghost function Place(d: seq<Mac>, m: Mac): (p: nat)
    ensures 1 <= p <= |d| + 1 && (p <= |d| ==> d[p - 1] == m) && (m in d ==> p <= |d|)
  {
    if d == [] || d[0] == m then 1 else 1 + Place(d[1..], m)
  }

  lemma PlaceIs(d: seq<Mac>, m: Mac, p: nat)
    requires NoRepeats(d) && 1 <= p <= |d| && d[p - 1] == m
    ensures Place(d, m) == p
  {
  }

  /** Whoever has no permanent place has none of the first 126. */
  lemma NotPlaced(xs: seq<Mac>, m: Mac)
    requires m !in Permanent(xs) && |Distinct(xs)| >= 126
    ensures Place(Distinct(xs + [m]), m) > 126
  {
    DistinctSnoc(xs, m);
    assert forall i :: 0 <= i < 126 ==> Distinct(xs + [m])[i] == Permanent(xs)[i] && Permanent(xs)[i] != m;
  }

  lemma KnownPlace(s: State, m: Mac, xs: seq<Mac>)
    requires TableIs(s.peers, s.nextWcid, xs) && Find(s.peers, m) != 0
    ensures var p, w := Place(Distinct(xs + [m]), m), Find(s.peers, m); w < 127 ==> p == w
    ensures var p, w := Place(Distinct(xs + [m]), m), Find(s.peers, m); w == 127 ==> p > 126
  {
    var w, d := Find(s.peers, m), Distinct(xs + [m]);
    DistinctSnoc(xs, m);
    DistinctNoRepeats(xs + [m]);
    LatecomerIsNotPermanent(xs);
    if w < 127 {
      assert EntryIs(s.peers[w], w, Distinct(xs)[w - 1]);
      PlaceIs(d, m, w);
    } else {
      NotPlaced(xs, m);
    }
  }

  lemma NewPlace(s: State, m: Mac, xs: seq<Mac>)
    requires TableIs(s.peers, s.nextWcid, xs) && Find(s.peers, m) == 0
    ensures var p := Place(Distinct(xs + [m]), m); if s.nextWcid < 127 then p == s.nextWcid else p > 126
  {
    var d := Distinct(xs + [m]);
    DistinctSnoc(xs, m);
    DistinctNoRepeats(xs + [m]);
    NotInPermanent(s, xs, m);
    if s.nextWcid < 127 {
      assert Distinct(xs) == Permanent(xs);
      PlaceIs(d, m, s.nextWcid);
    } else {
      NotPlaced(xs, m);
    }
  }

  /** The entry of a sender is its place among the distinct senders, up to the 126 permanent ones. */
  lemma EntryIsPlace(s: State, m: Mac, xs: seq<Mac>)
    requires PeersOk(s) && TableIs(s.peers, s.nextWcid, xs)
    ensures Entry(s, m) == var p := Place(Distinct(xs + [m]), m); if p <= 126 then p else 127
  {
    if Find(s.peers, m) != 0 { KnownPlace(s, m, xs); } else { NewPlace(s, m, xs); }
  }

  /** Which meanings bring their sender into the table. */
  ghost function ContactIn(d: Meaning): Option<Mac> {
    if d.Message? || d.Greeting? || d.Authentication? || d.Association? || (d.Probe? && d.emptySsid) then Some(d.src)
    else None
  }

  lemma ContactMeans(c: Config, i: Stimulus)
    ensures ContactOf(c, i) == ContactIn(MeaningOf(c, i))
  {
    if i.UsbIn? {
      Unpacks(i.buf);
      if BringsFrame(i.buf) { FrameContact(c, i.buf, Receive(i.buf).f); }
    }
  }

  lemma FrameContact(c: Config, buf: seq<byte>, f: Frame)
    requires BringsFrame(buf) && Receive(buf) == Wlan(f)
    ensures (if IsContact(c, f) then Some(f.src) else None) == ContactIn(FrameMeaning(c.ourMac, buf))
  {
    Unpacks(buf);
    ControlByte(buf[36]);
    HeadBytes(f.body);
    if ToUs(c, f) && f.kind == 0 { ManagementMeans(c, f, buf); }
  }

  // ---------------------------------------------------------------- what a controller has done so far

  datatype Deed = SpokeUp | AnnouncedItself

  /** A session frame from `m`, or an announce. */
  ghost predicate Did(d: Meaning, m: Mac, deed: Deed) {
    match deed
    case SpokeUp => (d.Message? || d.Greeting?) && d.src == m
    case AnnouncedItself => d.Message? && d.src == m && IsAnnounce(d.gip)
  }

  ghost predicate Ever(c: Config, inputs: seq<Stimulus>, m: Mac, deed: Deed) {
    exists j :: 0 <= j < |inputs| && Did(MeaningOf(c, inputs[j]), m, deed)
  }

  lemma EverSnoc(c: Config, inputs: seq<Stimulus>, m: Mac, deed: Deed)
    requires inputs != []
    ensures var n := |inputs| - 1;
            Ever(c, inputs, m, deed) <==> Ever(c, inputs[..n], m, deed) || Did(MeaningOf(c, inputs[n]), m, deed)
  {
    var n := |inputs| - 1;
    if j :| 0 <= j < |inputs| && Did(MeaningOf(c, inputs[j]), m, deed) {
      assert j < n ==> inputs[..n][j] == inputs[j];
    }
    if j :| 0 <= j < n && Did(MeaningOf(c, inputs[..n][j]), m, deed) {
      assert inputs[..n][j] == inputs[j];
    }
  }

  lemma {:induction false} InDistinct(xs: seq<Mac>, m: Mac)
    requires m in xs
    ensures m in Distinct(xs)
  {
    if m != xs[|xs| - 1] { InDistinct(xs[..|xs| - 1], m); }
  }

  lemma {:induction false} EverContacts(c: Config, inputs: seq<Stimulus>, m: Mac, deed: Deed)
    requires Ever(c, inputs, m, deed)
    ensures m in Contacts(c, inputs)
  {
    var n := |inputs| - 1;
    EverSnoc(c, inputs, m, deed);
    ContactsSnoc(c, inputs);
    if Ever(c, inputs[..n], m, deed) { EverContacts(c, inputs[..n], m, deed); }
  }

  lemma ContactsSnoc(c: Config, inputs: seq<Stimulus>)
    requires inputs != []
    ensures var n := |inputs| - 1;
            Contacts(c, inputs) == WithContact(Contacts(c, inputs[..n]), ContactIn(MeaningOf(c, inputs[n])))
  {
    ContactMeans(c, inputs[|inputs| - 1]);
  }

  /** The controller at place `w` after a run, and whether it has done the deed. */
  ghost predicate HasDone(c: Config, inputs: seq<Stimulus>, w: nat, deed: Deed) {
    var d := Distinct(Contacts(c, inputs));
    1 <= w <= |d| && Ever(c, inputs, d[w - 1], deed)
  }

  /** Whether this input does the deed for place `w`. */
  ghost predicate DoesNow(s: State, d: Meaning, w: nat, deed: Deed) {
    if deed.SpokeUp? then SessionFrameOf(s, d, w) else AnnounceOf(s, d, w)
  }

  lemma PlaceNow(s: State, d: Meaning, w: nat, deed: Deed, xs: seq<Mac>)
    requires PeersOk(s) && TableIs(s.peers, s.nextWcid, xs) && 1 <= w <= 126
    ensures DoesNow(s, d, w, deed) <==>
            ((d.Message? || d.Greeting?) && var ds := Distinct(xs + [d.src]); w <= |ds| && Did(d, ds[w - 1], deed))
  {
    if d.Message? || d.Greeting? {
      EntryIsPlace(s, d.src, xs);
      DistinctNoRepeats(xs + [d.src]);
      var ds := Distinct(xs + [d.src]);
      if w <= |ds| && ds[w - 1] == d.src { PlaceIs(ds, d.src, w); }
    }
  }

  /** A MAC that is new to the list has not done anything. */
  lemma Newcomer(c: Config, before: seq<Stimulus>, ds: seq<Mac>, w: nat, deed: Deed)
    requires var known := Distinct(Contacts(c, before)); known <= ds && |known| < w <= |ds| && NoRepeats(ds)
    ensures !Ever(c, before, ds[w - 1], deed)
  {
    var known := Distinct(Contacts(c, before));
    assert forall j :: 0 <= j < |known| ==> known[j] == ds[j] && ds[j] != ds[w - 1];
    if Ever(c, before, ds[w - 1], deed) {
      EverContacts(c, before, ds[w - 1], deed);
      InDistinct(Contacts(c, before), ds[w - 1]);
    }
  }

  /** Whether the last input is the deed of the controller at place `w`. */
  ghost predicate DidLast(c: Config, inputs: seq<Stimulus>, w: nat, deed: Deed)
    requires inputs != []
  {
    var d := Distinct(Contacts(c, inputs));
    1 <= w <= |d| && Did(MeaningOf(c, inputs[|inputs| - 1]), d[w - 1], deed)
  }

  lemma PlacesGrow(c: Config, inputs: seq<Stimulus>)
    requires inputs != []
    ensures Distinct(Contacts(c, inputs[..|inputs| - 1])) <= Distinct(Contacts(c, inputs))
  {
    ContactsGrow(c, inputs, |inputs| - 1);
    DistinctGrows(Contacts(c, inputs[..|inputs| - 1]), Contacts(c, inputs));
  }

  lemma EverAtPlace(c: Config, inputs: seq<Stimulus>, w: nat, deed: Deed)
    requires inputs != [] && 1 <= w <= |Distinct(Contacts(c, inputs))|
    ensures Ever(c, inputs[..|inputs| - 1], Distinct(Contacts(c, inputs))[w - 1], deed) <==>
            HasDone(c, inputs[..|inputs| - 1], w, deed)
  {
    var before, ds := inputs[..|inputs| - 1], Distinct(Contacts(c, inputs));
    PlacesGrow(c, inputs);
    DistinctNoRepeats(Contacts(c, inputs));
    if w > |Distinct(Contacts(c, before))| { Newcomer(c, before, ds, w, deed); }
  }

  lemma DoneSnoc(c: Config, inputs: seq<Stimulus>, w: nat, deed: Deed)
    requires inputs != []
    ensures HasDone(c, inputs, w, deed) <==>
            HasDone(c, inputs[..|inputs| - 1], w, deed) || DidLast(c, inputs, w, deed)
  {
    PlacesGrow(c, inputs);
    if 1 <= w <= |Distinct(Contacts(c, inputs))| {
      EverSnoc(c, inputs, Distinct(Contacts(c, inputs))[w - 1], deed);
      EverAtPlace(c, inputs, w, deed);
    }
  }

  lemma DoesNowIs(c: Config, inputs: seq<Stimulus>, w: nat, deed: Deed)
    requires inputs != [] && 1 <= w <= 126
    ensures var n := |inputs| - 1;
            DoesNow(Run(c, inputs[..n]), MeaningOf(c, inputs[n]), w, deed) <==> DidLast(c, inputs, w, deed)
  {
    var n := |inputs| - 1;
    InvRun(c, inputs[..n]);
    FirstContactTable(c, inputs[..n]);
    PlaceNow(Run(c, inputs[..n]), MeaningOf(c, inputs[n]), w, deed, Contacts(c, inputs[..n]));
    ContactMeans(c, inputs[n]);
  }

  /** After any run: the controller at place w <= 8 has its handshake if and only if it sent a session frame, and its
      session is initialised and its initial commands sent if and only if it sent an announce. */
  lemma {:induction false} SessionHistory(c: Config, inputs: seq<Stimulus>, w: nat)
    requires 1 <= w <= 8
    ensures var p := Run(c, inputs).peers[w];
            && (p.handshakeDone <==> HasDone(c, inputs, w, SpokeUp))
            && (p.sessionInitialized <==> HasDone(c, inputs, w, AnnouncedItself))
            && (p.initialCommandsSent <==> HasDone(c, inputs, w, AnnouncedItself))
  {
    if inputs != [] {
      var n := |inputs| - 1;
      SessionHistory(c, inputs[..n], w);
      InvRun(c, inputs[..n]);
      SessionFlags(c, Run(c, inputs[..n]), inputs[n], w);
      DoneSnoc(c, inputs, w, SpokeUp);
      DoesNowIs(c, inputs, w, SpokeUp);
      DoneSnoc(c, inputs, w, AnnouncedItself);
      DoesNowIs(c, inputs, w, AnnouncedItself);
    }
  }

  // ---------------------------------------------------------------- the host commands of a whole run

  /** The last input is the first announce of the controller at place `w`. */
  ghost predicate FirstAnnounce(c: Config, inputs: seq<Stimulus>, w: nat)
    requires inputs != []
  {
    var d := MeaningOf(c, inputs[|inputs| - 1]);
    && d.Message? && IsAnnounce(d.gip) && w == Place(Distinct(Contacts(c, inputs)), d.src)
    && !Ever(c, inputs[..|inputs| - 1], d.src, AnnouncedItself)
  }

  /** Three commands for each of the first eight controllers, at its first announce, numbered through. */
  ghost function Commanded(c: Config, inputs: seq<Stimulus>): seq<Output> {
    if inputs == [] then []
    else
      var before, d := Commanded(c, inputs[..|inputs| - 1]), MeaningOf(c, inputs[|inputs| - 1]);
      if d.Message? then
        var w := Place(Distinct(Contacts(c, inputs)), d.src);
        if w <= 8 && FirstAnnounce(c, inputs, w) && |before| <= 21 then before + InitialCommands(w, d.src, |before|)
        else before
      else before
  }

  /** In terms of the last step: when commands are due, to whom and with which numbers. */
  lemma CommandsDueNow(c: Config, inputs: seq<Stimulus>)
    requires inputs != [] && MeaningOf(c, inputs[|inputs| - 1]).Message?
    ensures var before, d := inputs[..|inputs| - 1], MeaningOf(c, inputs[|inputs| - 1]);
            var w := Place(Distinct(Contacts(c, inputs)), d.src);
            var s := Run(c, before);
            && Inv(s) && s.hostSeq == |HostCommands(s.log)|
            && (w <= 8 && FirstAnnounce(c, inputs, w) ==> s.hostSeq <= 21)
            && CommandsDue(s, d) ==
               if w <= 8 && FirstAnnounce(c, inputs, w) then InitialCommands(w, d.src, s.hostSeq) else []
  {
    var before, d := inputs[..|inputs| - 1], MeaningOf(c, inputs[|inputs| - 1]);
    var s := Run(c, before);
    InvRun(c, before);
    SequenceAccounting(c, before);
    SenderHistory(c, inputs);
    if Entry(s, d.src) <= 8 && IsAnnounce(d.gip) && !Was(s, d.src).initialCommandsSent {
      RoomForCommands(s, d.src);
    }
  }

  lemma RoomForCommands(s: State, m: Mac)
    requires Inv(s) && Entry(s, m) <= 8 && !Was(s, m).initialCommandsSent
    ensures s.hostSeq <= 21
  {
    WasInTable(s, m);
    AtMostEight(Initialised(s.log) + [Entry(s, m)]);
  }

  /** The sender of the last input: its entry is its place, and it has its commands exactly if it announced itself. */
  lemma SenderHistory(c: Config, inputs: seq<Stimulus>)
    requires inputs != [] && MeaningOf(c, inputs[|inputs| - 1]).Message?
    ensures var s, m := Run(c, inputs[..|inputs| - 1]), MeaningOf(c, inputs[|inputs| - 1]).src;
            var w := Place(Distinct(Contacts(c, inputs)), m);
            && (w <= 126 ==> Entry(s, m) == w) && (w > 126 ==> Entry(s, m) == 127)
            && (w <= 8 ==> (Was(s, m).initialCommandsSent <==> Ever(c, inputs[..|inputs| - 1], m, AnnouncedItself)))
  {
    var before, m := inputs[..|inputs| - 1], MeaningOf(c, inputs[|inputs| - 1]).src;
    var s, w := Run(c, before), Place(Distinct(Contacts(c, inputs)), m);
    InvRun(c, before);
    FirstContactTable(c, before);
    ContactMeans(c, inputs[|inputs| - 1]);
    EntryIsPlace(s, m, Contacts(c, before));
    WasInTable(s, m);
    if w <= 8 {
      InDistinct(Contacts(c, inputs), m);
      EverAtPlace(c, inputs, w, AnnouncedItself);
      SessionHistory(c, before, w);
    }
  }

  /** The host commands of any run are a function of its inputs: who announced itself, in which order. */
  lemma {:induction false} CommandHistory(c: Config, inputs: seq<Stimulus>)
    ensures HostCommands(Run(c, inputs).log) == Commanded(c, inputs)
  {
    if inputs != [] {
      var n := |inputs| - 1;
      CommandHistory(c, inputs[..n]);
      InvRun(c, inputs[..n]);
      CommandsOfStep(c, Run(c, inputs[..n]), inputs[n]);
      if MeaningOf(c, inputs[n]).Message? { CommandsDueNow(c, inputs); }
    }
  }
}
