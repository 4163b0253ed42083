// What the injector keeps over any stream of lines, and what it converges to on the daemon's stream.

module InjectorRuns {
  import opened Bytes
  import opened Gip
  import opened Text
  import opened EventLines
  import opened DaemonModel
  import opened DaemonInvariants
  import opened DaemonTheorems
  import opened Agreement
  import opened Injector

  // ---------------------------------------------------------------- the calls seen by SDL and the mutex

  ghost function LockHeld(calls: seq<Call>): bool {
    calls != [] && (calls[|calls| - 1].Lock? || (!calls[|calls| - 1].Unlock? && LockHeld(calls[..|calls| - 1])))
  }

  /** The devices attached and not yet detached. */
  ghost function Live(calls: seq<Call>): multiset<int> {
    if calls == [] then multiset{}
    else
      var before := Live(calls[..|calls| - 1]);
      match calls[|calls| - 1]
      case Attach(id) => before + multiset{id}
      case Detach(id) => before - multiset{id}
      case _ => before
  }

  ghost predicate OpenFailed(calls: seq<Call>) {
    calls != [] && calls[|calls| - 1].Open? && !calls[|calls| - 1].ok
  }

  /** The call before a detach: the device was closed, or could not be opened. */
  ghost predicate Released(calls: seq<Call>, id: int) {
    calls != [] && (calls[|calls| - 1] == Close(id) || calls[|calls| - 1] == Open(id, false))
  }

  /** The mutex is never taken twice, devices are touched only under it and only while attached, a device is opened
      right after it was attached, one that does not open is detached by the very next call, and otherwise none is
      detached but by the call after closing it. */
  ghost predicate Allowed(calls: seq<Call>, next: Call) {
    && (OpenFailed(calls) ==> next == Detach(calls[|calls| - 1].id))
    && match next
       case Lock => !LockHeld(calls)
       case Open(id, _) => LockHeld(calls) && calls != [] && calls[|calls| - 1] == Attach(id)
       case Close(id) => LockHeld(calls) && id in Live(calls)
       case Detach(id) => LockHeld(calls) && id in Live(calls) && Released(calls, id)
       case SetAxis(id, _, _) => LockHeld(calls) && id in Live(calls)
       case SetButton(id, _, _) => LockHeld(calls) && id in Live(calls)
       case SetHat(id, _) => LockHeld(calls) && id in Live(calls)
       case _ => LockHeld(calls)
  }

  ghost predicate Disciplined(calls: seq<Call>) {
    calls == [] || (Disciplined(calls[..|calls| - 1]) && Allowed(calls[..|calls| - 1], calls[|calls| - 1]))
  }

  lemma CallSnoc(calls: seq<Call>, x: Call)
    ensures Disciplined(calls + [x]) <==> Disciplined(calls) && Allowed(calls, x)
    ensures LockHeld(calls + [x]) == (x.Lock? || (!x.Unlock? && LockHeld(calls)))
    ensures Live(calls + [x]) == if x.Attach? then Live(calls) + multiset{x.id}
                                 else if x.Detach? then Live(calls) - multiset{x.id} else Live(calls)
    ensures OpenFailed(calls + [x]) == (x.Open? && !x.ok)
  {
    assert (calls + [x])[..|calls|] == calls;
  }

  // ---------------------------------------------------------------- conservation

  ghost function OwnId(p: Pad): multiset<int> { if p.active then multiset{p.id} else multiset{} }

  ghost function ActiveIds(pads: seq<Pad>): multiset<int> {
    if pads == [] then multiset{} else ActiveIds(pads[..|pads| - 1]) + OwnId(pads[|pads| - 1])
  }

  lemma Exchange(a: multiset<int>, b: multiset<int>, x: multiset<int>, y: multiset<int>, more: multiset<int>)
    requires a + x == b + y
    ensures (a + more) + x == (b + more) + y
  {
    assert (a + more) + x == (a + x) + more;
    assert (b + more) + y == (b + y) + more;
  }

  lemma ActiveIdsSnoc(pads: seq<Pad>, p: Pad)
    ensures ActiveIds(pads + [p]) == ActiveIds(pads) + OwnId(p)
  {
    assert (pads + [p])[..|pads|] == pads;
  }

  lemma UpdatedSnoc(pads: seq<Pad>, k: nat, p: Pad)
    requires k < |pads|
    ensures var n := |pads| - 1;
            pads[k := p] == if k == n then pads[..n] + [p] else pads[..n][k := p] + [pads[n]]
  {
  }

  lemma {:induction false} ActiveIdsUpdate(pads: seq<Pad>, k: nat, p: Pad)
    requires k < |pads|
    ensures ActiveIds(pads[k := p]) + OwnId(pads[k]) == ActiveIds(pads) + OwnId(p)
  {
    var before, last := pads[..|pads| - 1], pads[|pads| - 1];
    UpdatedSnoc(pads, k, p);
    if k == |pads| - 1 {
      ActiveIdsSnoc(before, p);
      SwapAdded(ActiveIds(before), OwnId(p), OwnId(last));
    } else {
      ActiveIdsSnoc(before[k := p], last);
      ActiveIdsUpdate(before, k, p);
      Exchange(ActiveIds(before[k := p]), ActiveIds(before), OwnId(pads[k]), OwnId(p), OwnId(last));
    }
  }

  lemma SwapAdded(a: multiset<int>, x: multiset<int>, y: multiset<int>)
    ensures (a + x) + y == (a + y) + x
  {
  }

  lemma {:induction false} OwnIdIsActive(pads: seq<Pad>, k: nat)
    requires k < |pads| && pads[k].active
    ensures pads[k].id in ActiveIds(pads)
  {
    if k < |pads| - 1 { OwnIdIsActive(pads[..|pads| - 1], k); }
  }

  ghost predicate PadOk(p: Pad) { if p.active then p.open && p.id >= 0 else p == BLANK_PAD }

  ghost predicate PadsOk(pads: seq<Pad>) { forall k :: 0 <= k < |pads| ==> PadOk(pads[k]) }

  /** Attached devices and active slots are the same, one to one. */
  ghost predicate Conserved(j: Injected) {
    PadsOk(j.pads) && Disciplined(j.calls) && !OpenFailed(j.calls) && Live(j.calls) == ActiveIds(j.pads)
  }

  ghost predicate Outside(j: Injected) { Conserved(j) && !LockHeld(j.calls) }

  ghost predicate Inside(j: Injected) { Conserved(j) && LockHeld(j.calls) }

  lemma EnterLeave(j: Injected)
    ensures Outside(j) ==> Inside(Say(j, Lock))
    ensures Inside(j) ==> Outside(Say(j, Unlock))
  {
    CallSnoc(j.calls, Lock);
    CallSnoc(j.calls, Unlock);
  }

  ghost predicate Shows(x: Call, id: int) {
    x.Flush? || ((x.SetAxis? || x.SetButton? || x.SetHat?) && x.id == id)
  }

  ghost predicate Showing(calls: seq<Call>, live: multiset<int>) {
    Disciplined(calls) && LockHeld(calls) && !OpenFailed(calls) && Live(calls) == live
  }

  lemma ShowOne(calls: seq<Call>, x: Call, live: multiset<int>, id: int)
    requires Showing(calls, live) && id in live && Shows(x, id)
    ensures Showing(calls + [x], live)
  {
    CallSnoc(calls, x);
  }

  lemma {:induction false} ShowingIsAllowed(calls: seq<Call>, more: seq<Call>, live: multiset<int>, id: int)
    requires Showing(calls, live) && id in live
    requires forall i :: 0 <= i < |more| ==> Shows(more[i], id)
    ensures Showing(calls + more, live)
    decreases |more|
  {
    if more == [] {
      assert calls + more == calls;
    } else {
      var n := |more| - 1;
      ShowingIsAllowed(calls, more[..n], live, id);
      ShowOne(calls + more[..n], more[n], live, id);
      assert calls + more == (calls + more[..n]) + [more[n]];
    }
  }

  lemma ApplyOnlyShows(c: Settings, p: Pad)
    ensures forall i :: 0 <= i < |ApplyCalls(c, p)| ==> Shows(ApplyCalls(c, p)[i], p.id)
  {
    assert forall i :: 0 <= i < 6 ==> Shows(AxisCalls(c, p)[i], p.id);
    assert forall i :: 0 <= i < 17 ==> Shows(ButtonCalls(c, p, 17)[i], p.id);
  }

  lemma PlugConserves(c: Settings, j: Injected, k: nat, sdl: Sdl)
    requires k < 8 && Inside(j)
    ensures Inside(Plug(c, j, k, sdl))
  {
    if !j.pads[k].active {
      if !AttachOk(j.api, sdl.id) {
        CallSnoc(j.calls, AttachFailed);
      } else {
        AttachOpens(j.calls, sdl.id, sdl.opens);
        if sdl.opens {
          var grown := j.calls + [Attach(sdl.id)] + [Open(sdl.id, true)];
          ActiveIdsUpdate(j.pads, k, Attached(sdl.id));
          ApplyOnlyShows(c, Attached(sdl.id));
          ShowingIsAllowed(grown, ApplyCalls(c, Attached(sdl.id)), Live(j.calls) + multiset{sdl.id}, sdl.id);
        }
      }
    }
  }

  lemma AttachOpens(calls: seq<Call>, id: int, opens: bool)
    requires Disciplined(calls) && LockHeld(calls) && !OpenFailed(calls)
    ensures var all := calls + [Attach(id)] + [Open(id, opens)];
            && Disciplined(all) && LockHeld(all) && Live(all) == Live(calls) + multiset{id} && OpenFailed(all) == !opens
            && (!opens ==> var out := all + [Detach(id)];
                           Disciplined(out) && LockHeld(out) && Live(out) == Live(calls) && !OpenFailed(out))
  {
    CallSnoc(calls, Attach(id));
    CallSnoc(calls + [Attach(id)], Open(id, opens));
    CallSnoc(calls + [Attach(id)] + [Open(id, opens)], Detach(id));
  }

  lemma Remaining(rest: multiset<int>, all: multiset<int>, id: int)
    ensures rest + multiset{id} == all + multiset{} ==> rest == all - multiset{id}
    ensures rest + multiset{id} == all + multiset{id} ==> rest == all
  {
    assert rest == (rest + multiset{id}) - multiset{id};
    assert all == (all + multiset{id}) - multiset{id} && all == all + multiset{};
  }

  lemma CloseAndDetach(calls: seq<Call>, id: int)
    requires Disciplined(calls) && LockHeld(calls) && !OpenFailed(calls) && id in Live(calls)
    ensures var all := calls + [Close(id)] + [Detach(id)];
            Disciplined(all) && LockHeld(all) && !OpenFailed(all) && Live(all) == Live(calls) - multiset{id}
  {
    CallSnoc(calls, Close(id));
    CallSnoc(calls + [Close(id)], Detach(id));
  }

  lemma UnplugConserves(j: Injected, k: nat)
    requires k < 8 && Inside(j)
    ensures Inside(Unplug(j, k))
  {
    var p := j.pads[k];
    if p.active {
      OwnIdIsActive(j.pads, k);
      CloseAndDetach(j.calls, p.id);
      ActiveIdsUpdate(j.pads, k, BLANK_PAD);
      Remaining(ActiveIds(j.pads[k := BLANK_PAD]), ActiveIds(j.pads), p.id);
    }
  }

  lemma TakeConserves(c: Settings, j: Injected, k: nat, buttons: int, r: Readings)
    requires k < 8 && Inside(j)
    ensures Inside(Take(c, j, k, buttons, r))
  {
    if j.pads[k].active {
      var p := Moved(j.pads[k], buttons, r);
      OwnIdIsActive(j.pads, k);
      ActiveIdsUpdate(j.pads, k, p);
      Remaining(ActiveIds(j.pads[k := p]), ActiveIds(j.pads), p.id);
      ApplyOnlyShows(c, p);
      ShowingIsAllowed(j.calls, ApplyCalls(c, p), Live(j.calls), p.id);
    }
  }

  lemma ConnectedConserves(c: Settings, j: Injected, slot: int, sdl: Sdl)
    requires Outside(j)
    ensures Outside(OnConnected(c, j, slot, sdl))
  {
    var a := Ready(j, sdl);
    if 0 <= slot < 8 && !a.api.Absent? {
      EnterLeave(a);
      PlugConserves(c, Say(a, Lock), slot, sdl);
      EnterLeave(Plug(c, Say(a, Lock), slot, sdl));
    }
  }

  lemma DisconnectedConserves(j: Injected, slot: int)
    requires Outside(j)
    ensures Outside(OnDisconnected(j, slot))
  {
    if 0 <= slot < 8 {
      EnterLeave(j);
      UnplugConserves(Say(j, Lock), slot);
      EnterLeave(Unplug(Say(j, Lock), slot));
    }
  }

  lemma FeedConserves(c: Settings, j: Injected, k: nat, buttons: int, r: Readings, sdl: Sdl)
    requires k < 8 && Outside(j)
    ensures Outside(Feed(c, j, k, buttons, r, sdl))
  {
    var a := Ready(j, sdl);
    if !a.api.Absent? {
      ConnectedConserves(c, a, k, sdl);
      var b := if a.pads[k].active then a else OnConnected(c, a, k, sdl);
      EnterLeave(b);
      TakeConserves(c, Say(b, Lock), k, buttons, r);
      EnterLeave(Take(c, Say(b, Lock), k, buttons, r));
    }
  }

  lemma InputConserves(c: Settings, j: Injected, line: string, sdl: Sdl)
    requires Outside(j)
    ensures Outside(Injector.OnInput(c, j, line, sdl))
  {
    var slot, buttons := GetInt(line, "slot"), GetInt(line, "buttons");
    if slot.Some? && 0 <= slot.value < 8 && buttons.Some? {
      FeedConserves(c, j, slot.value, buttons.value, Injector.Scan(line), sdl);
    }
  }

  lemma LineConserves(c: Settings, j: Injected, line: string, sdl: Sdl)
    requires Outside(j)
    ensures Outside(OnLine(c, j, line, sdl))
  {
    var slot := GetInt(line, "slot");
    if HasType(line, "connected") {
      if slot.Some? { ConnectedConserves(c, j, slot.value, sdl); }
    } else if HasType(line, "disconnected") {
      if slot.Some? { DisconnectedConserves(j, slot.value); }
    } else if HasType(line, "input") {
      InputConserves(c, j, line, sdl);
    }
  }

  /** After any lines whatever and any answers of SDL: the attached devices are exactly the active slots' devices,
      the mutex is free, and every call in between was allowed. */
  lemma {:induction false} Conservation(c: Settings, lines: seq<string>, sdl: seq<Sdl>)
    requires |sdl| == |lines|
    ensures Outside(OnLines(c, START, lines, sdl))
  {
    if lines != [] {
      var n := |lines| - 1;
      Conservation(c, lines[..n], sdl[..n]);
      LineConserves(c, OnLines(c, START, lines[..n], sdl[..n]), lines[n], sdl[n]);
    } else {
      assert ActiveIds(START.pads) == multiset{} by { NoneActive(START.pads); }
    }
  }

  lemma {:induction false} NoneActive(pads: seq<Pad>)
    requires forall k :: 0 <= k < |pads| ==> !pads[k].active
    ensures ActiveIds(pads) == multiset{}
  {
    if pads != [] { NoneActive(pads[..|pads| - 1]); }
  }

  lemma {:induction false} DisciplinedPrefix(calls: seq<Call>, n: nat)
    requires n <= |calls| && Disciplined(calls)
    ensures Disciplined(calls[..n])
    ensures n < |calls| ==> Allowed(calls[..n], calls[n])
    decreases |calls|
  {
    if n == |calls| {
      assert calls[..n] == calls;
    } else {
      assert calls[..|calls| - 1][..n] == calls[..n];
      DisciplinedPrefix(calls[..|calls| - 1], n);
    }
  }

  /** How often `id` is attached, one call after the other. */
  ghost function Count(calls: seq<Call>, id: int): nat {
    if calls == [] then 0
    else
      var before, last := Count(calls[..|calls| - 1], id), calls[|calls| - 1];
      if last == Attach(id) then before + 1
      else if last == Detach(id) && before > 0 then before - 1
      else before
  }

  lemma CountSnoc(calls: seq<Call>, x: Call, id: int)
    ensures Count(calls + [x], id) == if x == Attach(id) then Count(calls, id) + 1
                                      else if x == Detach(id) && Count(calls, id) > 0 then Count(calls, id) - 1
                                      else Count(calls, id)
  {
    assert (calls + [x])[..|calls|] == calls;
  }

  lemma {:induction false} LiveIsCount(calls: seq<Call>, id: int)
    ensures Live(calls)[id] == Count(calls, id)
  {
    if calls != [] {
      LiveIsCount(calls[..|calls| - 1], id);
    }
  }

  lemma {:induction false} StaysDetached(calls: seq<Call>, more: seq<Call>, id: int)
    requires Count(calls, id) == 0 && forall m :: 0 <= m < |more| ==> more[m] != Attach(id)
    ensures Count(calls + more, id) == 0
    decreases |more|
  {
    if more == [] {
      assert calls + more == calls;
    } else {
      var n := |more| - 1;
      StaysDetached(calls, more[..n], id);
      CountSnoc(calls + more[..n], more[n], id);
      assert calls + more == (calls + more[..n]) + [more[n]];
    }
  }

  lemma AfterDetach(calls: seq<Call>, i: nat, id: int)
    requires i < |calls| && calls[i] == Detach(id) && Count(calls[..i], id) <= 1
    ensures Count(calls[..i + 1], id) == 0
  {
    assert calls[..i + 1] == calls[..i] + [calls[i]];
    CountSnoc(calls[..i], calls[i], id);
  }

  lemma DetachNeedsDevice(calls: seq<Call>, j: nat, id: int)
    requires Disciplined(calls) && j < |calls| && calls[j] == Detach(id)
    ensures Count(calls[..j], id) > 0
  {
    DisciplinedPrefix(calls, j);
    LiveIsCount(calls[..j], id);
  }

  lemma StillGone(calls: seq<Call>, i: nat, j: nat, id: int)
    requires i < j <= |calls| && Count(calls[..i + 1], id) == 0 && forall m :: i < m < j ==> calls[m] != Attach(id)
    ensures Count(calls[..j], id) == 0
  {
    StaysDetached(calls[..i + 1], calls[i + 1..j], id);
    assert calls[..j] == calls[..i + 1] + calls[i + 1..j];
  }

  /** No device is detached twice: a second detach of an id needs SDL to have handed the id out again. */
  lemma DetachedOnce(calls: seq<Call>, i: nat, j: nat, id: int)
    requires Disciplined(calls) && i < j < |calls| && calls[i] == Detach(id) && calls[j] == Detach(id)
    requires Live(calls[..i])[id] <= 1
    ensures exists m :: i < m < j && calls[m] == Attach(id)
  {
    LiveIsCount(calls[..i], id);
    AfterDetach(calls, i, id);
    DetachNeedsDevice(calls, j, id);
    if forall m :: i < m < j ==> calls[m] != Attach(id) {
      StillGone(calls, i, j, id);
    }
  }

  /** SDL never hands out an id that is still attached. */
  ghost predicate HandsOutFresh(calls: seq<Call>) {
    forall i :: 0 <= i < |calls| && calls[i].Attach? ==> calls[i].id !in Live(calls[..i])
  }

  lemma {:induction false} AttachedOnce(calls: seq<Call>, n: nat, id: int)
    requires HandsOutFresh(calls) && n <= |calls|
    ensures Count(calls[..n], id) <= 1
  {
    if n > 0 {
      var m := n - 1;
      AttachedOnce(calls, m, id);
      assert calls[..n] == calls[..m] + [calls[m]];
      CountSnoc(calls[..m], calls[m], id);
      if calls[m] == Attach(id) { FreshIsZero(calls, m); }
    }
  }

  lemma FreshIsZero(calls: seq<Call>, m: nat)
    requires HandsOutFresh(calls) && m < |calls| && calls[m].Attach?
    ensures Count(calls[..m], calls[m].id) == 0
  {
    LiveIsCount(calls[..m], calls[m].id);
  }

  /** Over any lines: as long as SDL hands out fresh ids, no device is detached twice. */
  lemma NeverDetachedTwice(c: Settings, lines: seq<string>, sdl: seq<Sdl>, i: nat, j: nat, id: int)
    requires |sdl| == |lines|
    requires var calls := OnLines(c, START, lines, sdl).calls;
             HandsOutFresh(calls) && i < j < |calls| && calls[i] == Detach(id) && calls[j] == Detach(id)
    ensures exists m :: i < m < j && OnLines(c, START, lines, sdl).calls[m] == Attach(id)
  {
    var calls := OnLines(c, START, lines, sdl).calls;
    Conservation(c, lines, sdl);
    AttachedOnce(calls, i, id);
    LiveIsCount(calls[..i], id);
    DetachedOnce(calls, i, j, id);
  }

  // ---------------------------------------------------------------- joining late

  /** The injector after the events of `es`, when SDL gives `sdl`. */
  ghost function Joined(c: Settings, es: seq<Event>, sdl: seq<Sdl>): Injected
    requires |sdl| == |es|
  {
    if es == [] then START else OnEvent(c, Joined(c, es[..|es| - 1], sdl[..|es| - 1]), es[|es| - 1], sdl[|es| - 1])
  }

  lemma {:induction false} LinesPrefix(es: seq<Event>, n: nat)
    requires n < |es|
    ensures Lines(es)[..n] == Lines(es[..n]) && Lines(es)[n] == Print(es[n])
  {
    if n == 0 {
    } else {
      assert es[..n][1..] == es[1..][..n - 1];
      LinesPrefix(es[1..], n - 1);
      assert Lines(es)[..n] == [Print(es[0])] + Lines(es[1..])[..n - 1];
    }
  }

  lemma LastLine(c: Settings, j: Injected, lines: seq<string>, sdl: seq<Sdl>)
    requires |sdl| == |lines| && lines != []
    ensures var n := |lines| - 1;
            OnLines(c, j, lines, sdl) == OnLine(c, OnLines(c, j, lines[..n], sdl[..n]), lines[n], sdl[n])
  {
  }

  /** Text in one buffer or many: reading the stream of `es` is handling its events. */
  lemma {:induction false} StreamIsEvents(c: Settings, es: seq<Event>, sdl: seq<Sdl>)
    requires |sdl| == |es|
    ensures OnLines(c, START, Lines(es), sdl) == Joined(c, es, sdl)
  {
    if es != [] {
      var n := |es| - 1;
      var lines := Lines(es);
      LinesPrefix(es, n);
      LastLine(c, START, lines, sdl);
      StreamIsEvents(c, es[..n], sdl[..n]);
      LineIsEvent(c, Joined(c, es[..n], sdl[..n]), es[n], sdl[n]);
    }
  }

  /** SDL is there from the first line on and every attach and open works. */
  ghost predicate Attaches(api: Api, sdl: seq<Sdl>) {
    !api.Absent? && forall i :: 0 <= i < |sdl| ==> sdl[i].found == api && AttachOk(api, sdl[i].id) && sdl[i].opens
  }

  ghost predicate IsInput(e: Event, k: byte) { e.Input? && e.slot == k }

  ghost predicate Announces(e: Event, k: byte) { e == Connected(k) || IsInput(e, k) }

  /** What holds of the injector's state whatever SDL answers. */
  ghost predicate Sound(j: Injected) {
    PadsOk(j.pads) && forall k :: 0 <= k < 8 && j.pads[k].active ==> !j.api.Absent?
  }

  /** What one event may do to a pad, whatever SDL answers: a device appears only with a connect or an input of its
      slot, disappears only with a disconnect, and in between only inputs move it. */
  ghost predicate PadStep(p: Pad, q: Pad, e: Event, sdl: Sdl, k: byte) {
    if p.active then
      q == if e == Disconnected(k) then BLANK_PAD
           else if IsInput(e, k) then Moved(p, e.state.buttons, ReadingsOf(e.state)) else p
    else
      q == BLANK_PAD || (e == Connected(k) && q == Attached(sdl.id))
      || (IsInput(e, k) && q == Moved(Attached(sdl.id), e.state.buttons, ReadingsOf(e.state)))
  }

  lemma ConnectedSteps(c: Settings, j: Injected, slot: byte, sdl: Sdl, k: byte)
    requires k < 8 && Sound(j)
    ensures var t := OnConnected(c, j, slot, sdl); Sound(t) && PadStep(j.pads[k], t.pads[k], Connected(slot), sdl, k)
  {
  }

  lemma DisconnectedSteps(j: Injected, slot: byte, sdl: Sdl, k: byte)
    requires k < 8 && Sound(j)
    ensures var t := OnDisconnected(j, slot); Sound(t) && PadStep(j.pads[k], t.pads[k], Disconnected(slot), sdl, k)
  {
  }

  lemma TakeSteps(c: Settings, j: Injected, slot: byte, g: GipInput)
    requires slot < 8 && Sound(j)
    ensures var p, t := j.pads[slot], Say(Take(c, Say(j, Lock), slot, g.buttons, ReadingsOf(g)), Unlock);
            Sound(t) && t.pads == if p.active then j.pads[slot := Moved(p, g.buttons, ReadingsOf(g))] else j.pads
  {
  }

  lemma InputSteps(c: Settings, j: Injected, slot: byte, g: GipInput, sdl: Sdl, k: byte)
    requires k < 8 && slot < 8 && Sound(j)
    ensures var t := Feed(c, j, slot, g.buttons, ReadingsOf(g), sdl);
            Sound(t) && PadStep(j.pads[k], t.pads[k], Input(slot, g), sdl, k)
  {
    var a := Ready(j, sdl);
    var b := if a.pads[slot].active then a else OnConnected(c, a, slot, sdl);
    ConnectedSteps(c, a, slot, sdl, k);
    TakeSteps(c, b, slot, g);
  }

  lemma EventSteps(c: Settings, j: Injected, e: Event, sdl: Sdl, k: byte)
    requires k < 8 && Sound(j)
    ensures Sound(OnEvent(c, j, e, sdl)) && PadStep(j.pads[k], OnEvent(c, j, e, sdl).pads[k], e, sdl, k)
  {
    match e {
      case Connected(slot) => ConnectedSteps(c, j, slot, sdl, k);
      case Disconnected(slot) => DisconnectedSteps(j, slot, sdl, k);
      case Input(slot, g) => if slot < 8 { InputSteps(c, j, slot, g, sdl, k); }
      case Guide(_, _) =>
      case HidUnavailable =>
    }
  }

  lemma {:induction false} StaysSound(c: Settings, es: seq<Event>, sdl: seq<Sdl>)
    requires |sdl| == |es|
    ensures Sound(Joined(c, es, sdl))
  {
    if es != [] {
      var n := |es| - 1;
      StaysSound(c, es[..n], sdl[..n]);
      EventSteps(c, Joined(c, es[..n], sdl[..n]), es[n], sdl[n], 0);
    }
  }

  lemma LastStep(c: Settings, es: seq<Event>, sdl: seq<Sdl>, k: byte)
    requires k < 8 && |sdl| == |es| && es != []
    ensures var n := |es| - 1;
            PadStep(Joined(c, es[..n], sdl[..n]).pads[k], Joined(c, es, sdl).pads[k], es[n], sdl[n], k)
  {
    var n := |es| - 1;
    StaysSound(c, es[..n], sdl[..n]);
    EventSteps(c, Joined(c, es[..n], sdl[..n]), es[n], sdl[n], k);
  }

  /** Whatever SDL answers, the injector never holds a device for a slot that is offline. */
  lemma {:induction false} OnlyWhileOnline(c: Settings, pre: seq<Event>, post: seq<Event>, sdl: seq<Sdl>, k: byte)
    requires k < 8 && |sdl| == |post| && Grammatical(pre + post)
    ensures Joined(c, post, sdl).pads[k].active ==> Online(pre + post, k)
    decreases |post|
  {
    if post != [] {
      var n := |post| - 1;
      LastStep(c, post, sdl, k);
      assert pre + post == (pre + post[..n]) + [post[n]];
      EventSnoc(pre + post[..n], post[n]);
      OnlyWhileOnline(c, pre, post[..n], sdl[..n], k);
    }
  }

  ghost predicate Follower(j: Injected, api: Api) { j.api.Absent? || j.api == api }

  /** When attaching works, a connect or an input of a slot leaves it with a device. */
  lemma AttachingWorks(c: Settings, j: Injected, e: Event, sdl: Sdl, api: Api, k: byte)
    requires k < 8 && Follower(j, api) && Attaches(api, [sdl])
    ensures Follower(OnEvent(c, j, e, sdl), api) && (Announces(e, k) ==> OnEvent(c, j, e, sdl).pads[k].active)
  {
    assert [sdl][0] == sdl;
  }

  lemma {:induction false} StaysFollower(c: Settings, es: seq<Event>, sdl: seq<Sdl>, api: Api)
    requires |sdl| == |es| && Attaches(api, sdl)
    ensures Follower(Joined(c, es, sdl), api)
  {
    if es != [] {
      var n := |es| - 1;
      StaysFollower(c, es[..n], sdl[..n], api);
      assert [sdl[n]][0] == sdl[n];
      AttachingWorks(c, Joined(c, es[..n], sdl[..n]), es[n], sdl[n], api, 0);
    }
  }

  lemma LastAnnounces(c: Settings, es: seq<Event>, sdl: seq<Sdl>, api: Api, k: byte)
    requires k < 8 && |sdl| == |es| && es != [] && Attaches(api, sdl) && Announces(es[|es| - 1], k)
    ensures Joined(c, es, sdl).pads[k].active
  {
    var n := |es| - 1;
    StaysFollower(c, es[..n], sdl[..n], api);
    assert [sdl[n]][0] == sdl[n];
    AttachingWorks(c, Joined(c, es[..n], sdl[..n]), es[n], sdl[n], api, k);
  }

  /** Having missed any prefix of a grammatical stream, the injector holds a device for exactly the slots that are
      online and whose controller connected or sent input since it joined. */
  lemma {:induction false} LateJoiner(c: Settings, pre: seq<Event>, post: seq<Event>, sdl: seq<Sdl>, api: Api, k: byte)
    requires k < 8 && |sdl| == |post| && Attaches(api, sdl) && Grammatical(pre + post)
    ensures Joined(c, post, sdl).pads[k].active <==>
            Online(pre + post, k) && exists i :: 0 <= i < |post| && Announces(post[i], k)
    decreases |post|
  {
    if post != [] {
      var n := |post| - 1;
      assert pre + post == (pre + post[..n]) + [post[n]];
      EventSnoc(pre + post[..n], post[n]);
      LateJoiner(c, pre, post[..n], sdl[..n], api, k);
      SplitAnnounces(post, k);
      if Announces(post[n], k) {
        LastAnnounces(c, post, sdl, api, k);
      } else {
        LastStep(c, post, sdl, k);
      }
    }
  }

  lemma SplitAnnounces(post: seq<Event>, k: byte)
    requires post != []
    ensures var n, before := |post| - 1, post[..|post| - 1];
            (exists i :: 0 <= i < |post| && Announces(post[i], k)) <==>
            (exists i :: 0 <= i < n && Announces(before[i], k)) || Announces(post[n], k)
  {
    var n, before := |post| - 1, post[..|post| - 1];
    if i :| 0 <= i < |post| && Announces(post[i], k) {
      assert i < n ==> before[i] == post[i];
    }
    if i :| 0 <= i < n && Announces(before[i], k) {
      assert before[i] == post[i];
    }
  }

  /** The events a run of the daemon emits after its first `n` inputs. */
  ghost function EventsSince(c: Config, inputs: seq<Stimulus>, n: nat): seq<Event>
    requires n <= |inputs|
  {
    var pre, all := EventsOf(Run(c, inputs[..n]).log), EventsOf(Run(c, inputs).log);
    if |pre| <= |all| then all[|pre|..] else []
  }

  lemma EventsSplit(c: Config, inputs: seq<Stimulus>, n: nat)
    requires n <= |inputs|
    ensures EventsOf(Run(c, inputs).log) == EventsOf(Run(c, inputs[..n]).log) + EventsSince(c, inputs, n)
  {
    LogGrows(c, inputs, n);
  }

  /** The same against a run of the daemon, read as text, for an injector started after the first `n` inputs. */
  lemma LateJoinerOfDaemon(c: Config, inputs: seq<Stimulus>, n: nat, settings: Settings, sdl: seq<Sdl>, api: Api,
                           k: byte)
    requires n <= |inputs| && k < 8 && |sdl| == |Tokens(Stream(EventsSince(c, inputs, n)))| && Attaches(api, sdl)
    ensures var seen := EventsSince(c, inputs, n);
            OnLines(settings, START, Tokens(Stream(seen)), sdl).pads[k].active <==>
            Run(c, inputs).slots[k].active && exists i :: 0 <= i < |seen| && Announces(seen[i], k)
  {
    var seen := EventsSince(c, inputs, n);
    EventsSplit(c, inputs, n);
    EventGrammar(c, inputs, k);
    StreamRoundTrip(seen);
    StreamIsEvents(settings, seen, sdl);
    LateJoiner(settings, EventsOf(Run(c, inputs[..n]).log), seen, sdl, api, k);
  }

  /** Whatever SDL answers, a device is held only for a slot the daemon has active. */
  lemma OnlyForActiveSlots(c: Config, inputs: seq<Stimulus>, n: nat, settings: Settings, sdl: seq<Sdl>, k: byte)
    requires n <= |inputs| && k < 8 && |sdl| == |Tokens(Stream(EventsSince(c, inputs, n)))|
    ensures OnLines(settings, START, Tokens(Stream(EventsSince(c, inputs, n))), sdl).pads[k].active ==>
            Run(c, inputs).slots[k].active
  {
    var seen := EventsSince(c, inputs, n);
    EventsSplit(c, inputs, n);
    EventGrammar(c, inputs, k);
    StreamRoundTrip(seen);
    StreamIsEvents(settings, seen, sdl);
    OnlyWhileOnline(settings, EventsOf(Run(c, inputs[..n]).log), seen, sdl, k);
  }

  // ---------------------------------------------------------------- calibration

  /** How far a trigger is from where it was first seen, up to its full range. */
  ghost function Travel(from: nat, to: nat): nat {
    var d := if to >= from then to - from else from - to;
    if d > 4095 then 4095 else d
  }

  /** The readings `r` are the distance from the state `a` to the state `b`. */
  ghost predicate Between(r: Readings, a: GipInput, b: GipInput) {
    && r.lx + a.lx == b.lx && r.ly + a.ly == b.ly && r.rx + a.rx == b.rx && r.ry + a.ry == b.ry
    && r.lt == Travel(a.lt, b.lt) && r.rt == Travel(a.rt, b.rt)
  }

  /** The pad's baseline is the input `first`, and it shows the input `last` relative to it. */
  ghost predicate Calibrated(p: Pad, first: Event, last: Event)
    requires first.Input? && last.Input?
  {
    && p.active && p.calibrated && p.base == ReadingsOf(first.state)
    && p.buttons == last.state.buttons && Between(p.now, first.state, last.state)
  }

  /** The device of slot `k` appears with event number `from` and is there ever since. */
  ghost predicate DeviceSince(c: Settings, es: seq<Event>, sdl: seq<Sdl>, k: byte, from: nat)
    requires k < 8 && |sdl| == |es|
  {
    && from < |es| && !Joined(c, es[..from], sdl[..from]).pads[k].active
    && forall n :: from < n <= |es| ==> Joined(c, es[..n], sdl[..n]).pads[k].active
  }

  lemma DeviceEarlier(c: Settings, es: seq<Event>, sdl: seq<Sdl>, k: byte, from: nat)
    requires k < 8 && |sdl| == |es| && DeviceSince(c, es, sdl, k, from) && from < |es| - 1
    ensures DeviceSince(c, es[..|es| - 1], sdl[..|es| - 1], k, from)
  {
    var before, answers := es[..|es| - 1], sdl[..|es| - 1];
    forall n | 0 <= n < |es| ensures before[..n] == es[..n] && answers[..n] == sdl[..n] {}
    forall n | from < n <= |before| ensures Joined(c, before[..n], answers[..n]).pads[k].active {
      assert before[..n] == es[..n] && answers[..n] == sdl[..n];
    }
  }

  lemma HeldNow(c: Settings, es: seq<Event>, sdl: seq<Sdl>, k: byte, from: nat)
    requires k < 8 && |sdl| == |es| && DeviceSince(c, es, sdl, k, from)
    ensures Joined(c, es, sdl).pads[k].active
  {
    assert es[..|es|] == es && sdl[..|es|] == sdl;
  }

  ghost predicate NoInputs(es: seq<Event>, from: nat, n: nat, k: byte)
    requires n <= |es|
  {
    forall m :: from <= m < n ==> !IsInput(es[m], k)
  }

  /** A device that has seen no input yet is not calibrated. */
  lemma {:induction false} Uncalibrated(c: Settings, es: seq<Event>, sdl: seq<Sdl>, k: byte, from: nat)
    requires k < 8 && |sdl| == |es| && DeviceSince(c, es, sdl, k, from) && NoInputs(es, from, |es|, k)
    ensures !Joined(c, es, sdl).pads[k].calibrated
  {
    LastStep(c, es, sdl, k);
    if from < |es| - 1 {
      DeviceEarlier(c, es, sdl, k, from);
      HeldNow(c, es[..|es| - 1], sdl[..|es| - 1], k, from);
      Uncalibrated(c, es[..|es| - 1], sdl[..|es| - 1], k, from);
    }
  }

  lemma CalibratesNow(c: Settings, es: seq<Event>, sdl: seq<Sdl>, k: byte, from: nat)
    requires k < 8 && |sdl| == |es| && DeviceSince(c, es, sdl, k, from)
    requires NoInputs(es, from, |es| - 1, k) && IsInput(es[|es| - 1], k)
    ensures Calibrated(Joined(c, es, sdl).pads[k], es[|es| - 1], es[|es| - 1])
  {
    var n := |es| - 1;
    LastStep(c, es, sdl, k);
    HeldNow(c, es, sdl, k, from);
    if from < n {
      DeviceEarlier(c, es, sdl, k, from);
      HeldNow(c, es[..n], sdl[..n], k, from);
      Uncalibrated(c, es[..n], sdl[..n], k, from);
    }
  }

  lemma StaysCalibrated(c: Settings, es: seq<Event>, sdl: seq<Sdl>, k: byte, first: Event, last: Event)
    requires k < 8 && |sdl| == |es| && es != [] && first.Input? && last.Input?
    requires Calibrated(Joined(c, es[..|es| - 1], sdl[..|es| - 1]).pads[k], first, last)
    requires Joined(c, es, sdl).pads[k].active
    ensures Calibrated(Joined(c, es, sdl).pads[k], first, if IsInput(es[|es| - 1], k) then es[|es| - 1] else last)
  {
    LastStep(c, es, sdl, k);
  }

  ghost function LatestInput(es: seq<Event>, first: nat, n: nat, k: byte): (m: nat)
    requires first < n <= |es| && IsInput(es[first], k)
    ensures first <= m < n && IsInput(es[m], k) && forall i :: m < i < n ==> !IsInput(es[i], k)
  {
    if IsInput(es[n - 1], k) then n - 1 else LatestInput(es, first, n - 1, k)
  }

  /** The latest input before the last event, and what is known about the stream up to there. */
  ghost function PreviousInput(es: seq<Event>, from: nat, first: nat, last: nat, k: byte): (m: nat)
    requires from <= first <= last < |es| && first < |es| - 1 && IsInput(es[first], k) && NoInputs(es, from, first, k)
    requires IsInput(es[last], k) && NoInputs(es, last + 1, |es|, k)
    ensures var n, before := |es| - 1, es[..|es| - 1];
            && first <= m < n && before[first] == es[first] && before[m] == es[m] && IsInput(es[m], k)
            && NoInputs(before, from, first, k) && NoInputs(before, m + 1, n, k)
            && es[last] == if IsInput(es[n], k) then es[n] else es[m]
  {
    var n, before := |es| - 1, es[..|es| - 1];
    assert forall i :: 0 <= i < n ==> before[i] == es[i];
    if n == last then LatestInput(es, first, n, k) else last
  }

  /** Whatever SDL answers, the baseline of a slot is the first input since its device appeared, and stays so as long as
      the device does; what is shown is always the latest input relative to it. */
  lemma {:induction false} Calibration(c: Settings, es: seq<Event>, sdl: seq<Sdl>, k: byte, from: nat, first: nat,
                                       last: nat)
    requires k < 8 && |sdl| == |es| && DeviceSince(c, es, sdl, k, from)
    requires from <= first <= last < |es| && IsInput(es[first], k) && NoInputs(es, from, first, k)
    requires IsInput(es[last], k) && NoInputs(es, last + 1, |es|, k)
    ensures Calibrated(Joined(c, es, sdl).pads[k], es[first], es[last])
    decreases |es|
  {
    var n := |es| - 1;
    if n == first {
      CalibratesNow(c, es, sdl, k, from);
    } else {
      var previous := PreviousInput(es, from, first, last, k);
      DeviceEarlier(c, es, sdl, k, from);
      Calibration(c, es[..n], sdl[..n], k, from, first, previous);
      HeldNow(c, es, sdl, k, from);
      StaysCalibrated(c, es, sdl, k, es[first], es[previous]);
    }
  }

  /** Whatever the resting position of a controller, its first input shows centred sticks and released triggers. */
  lemma RestIsCentred(c: Settings, p: Pad, buttons: int, r: Readings)
    requires !p.calibrated
    ensures forall i :: 0 <= i < 6 ==> AxisCalls(c, Moved(p, buttons, r))[i] == SetAxis(p.id, i, 0)
  {
    assert Moved(p, buttons, r).now == NO_READINGS;
    assert StickAxis(c, 0) == 0;
  }

  // ---------------------------------------------------------------- axis layouts

  datatype Role = LeftX | LeftY | RightX | RightY | LeftTrigger | RightTrigger

  const SDL_ORDER := [LeftX, LeftY, RightX, RightY, LeftTrigger, RightTrigger]
  const XONE_ORDER := [LeftX, LeftY, LeftTrigger, RightX, RightY, RightTrigger]

  function Swapped(c: Settings, r: Role): Role {
    match r
    case LeftX => if c.swapSticks then RightX else r
    case LeftY => if c.swapSticks then RightY else r
    case RightX => if c.swapSticks then LeftX else r
    case RightY => if c.swapSticks then LeftY else r
    case LeftTrigger => if c.swapLr then RightTrigger else r
    case RightTrigger => if c.swapLr then LeftTrigger else r
  }

  function Level(c: Settings, s: Readings, r: Role): i16 {
    match r
    case LeftX => StickAxis(c, s.lx)
    case LeftY => StickAxis(c, -s.ly)
    case RightX => StickAxis(c, s.rx)
    case RightY => StickAxis(c, -s.ry)
    case LeftTrigger => TriggerAxis(s.lt)
    case RightTrigger => TriggerAxis(s.rt)
  }

  ghost function RoleOf(c: Settings, a: nat): Role
    requires a < 6
  {
    Swapped(c, if c.xoneLayout then XONE_ORDER[a] else SDL_ORDER[a])
  }

  /** Every axis carries the control that the layout and the swaps assign to it. */
  lemma AxisCarries(c: Settings, p: Pad, a: nat)
    requires a < 6
    ensures |AxisCalls(c, p)| == 6 && AxisCalls(c, p)[a] == SetAxis(p.id, a, Level(c, p.now, RoleOf(c, a)))
  {
    if c.xoneLayout {
      assert XONE_ORDER[a] == if a == 0 then LeftX else if a == 1 then LeftY else if a == 2 then LeftTrigger
                              else if a == 3 then RightX else if a == 4 then RightY else RightTrigger;
    } else {
      assert SDL_ORDER[a] == if a == 0 then LeftX else if a == 1 then LeftY else if a == 2 then RightX
                             else if a == 3 then RightY else if a == 4 then LeftTrigger else RightTrigger;
    }
  }

  /** In both layouts and under every swap, no control is lost and none drives two axes. */
  lemma RolesAreDistinct(c: Settings, a: nat, b: nat)
    requires a < b < 6
    ensures RoleOf(c, a) != RoleOf(c, b)
  {
    var order := if c.xoneLayout then XONE_ORDER else SDL_ORDER;
    assert order[a] != order[b];
    assert Swapped(c, Swapped(c, order[a])) == order[a];
  }
}
