/** The handlers registered for a command, and what disposing registrations in any order leaves. */
module HandlerStacks {
  import opened Sequences

  /** A handler is registered for a command, or the registration made by the event at a position
      is disposed. Handlers are objects, told apart by identity. */
  datatype Event = Register(command: string, handler: nat) | Dispose(token: nat)

  /** Only registrations that were made are disposed. */
  ghost predicate WellFormed(log: seq<Event>) {
    forall i :: 0 <= i < |log| && log[i].Dispose? ==> log[i].token < i && log[log[i].token].Register?
  }

  function IndexOf<T(==)>(s: seq<T>, x: T): (i: int)
    ensures -1 <= i < |s|
    ensures i == -1 <==> x !in s
    ensures i >= 0 ==> s[i] == x && forall j :: 0 <= j < i ==> s[j] != x
  {
    if s == [] then -1
    else if s[0] == x then 0
    else
      var i := IndexOf(s[1..], x);
      assert forall j :: 0 < j < |s| ==> s[j] == s[1..][j - 1];
      if i == -1 then -1 else i + 1
  }

  function Spliced<T>(s: seq<T>, i: nat): seq<T>
    requires i < |s|
  {
    s[..i] + s[i + 1..]
  }

  lemma {:induction false} WithoutIsSpliced<T>(s: seq<T>, x: T)
    ensures Without(s, x) == if IndexOf(s, x) >= 0 then Spliced(s, IndexOf(s, x)) else s
  {
    if s != [] && s[0] != x {
      WithoutIsSpliced(s[1..], x);
      SplicedBehind(s, IndexOf(s[1..], x));
    }
  }

  lemma SplicedBehind<T>(s: seq<T>, i: int)
    requires s != []
    ensures 0 <= i < |s| - 1 ==> Spliced(s, i + 1) == [s[0]] + Spliced(s[1..], i)
    ensures [s[0]] + s[1..] == s
  {
  }

  /** The handlers of a command after the events of a log, newest first, as the registry does it:
      a registration goes to the front, a disposal takes out the first occurrence of its handler. */
  ghost function Stack(log: seq<Event>, command: string): seq<nat>
    requires WellFormed(log)
  {
    if log == [] then []
    else
      var before := log[..|log| - 1];
      AfterEvent(Stack(before, command), before, log[|log| - 1], command)
  }

  ghost function AfterEvent(s: seq<nat>, log: seq<Event>, event: Event, command: string): seq<nat>
    requires event.Dispose? ==> event.token < |log| && log[event.token].Register?
  {
    match event
    case Register(c, h) => if c == command then [h] + s else s
    case Dispose(t) => if log[t].command == command then Without(s, log[t].handler) else s
  }

  lemma StackAfter(log: seq<Event>, event: Event, command: string)
    requires WellFormed(log + [event])
    ensures WellFormed(log)
    ensures event.Dispose? ==> event.token < |log| && log[event.token].Register?
    ensures Stack(log + [event], command) == AfterEvent(Stack(log, command), log, event, command)
  {
    var more := log + [event];
    assert more[..|log|] == log && more[|log|] == event;
    forall i | 0 <= i < |log| && log[i].Dispose?
      ensures log[i].token < i && log[log[i].token].Register?
    {
      assert more[i] == log[i];
    }
  }

  lemma WellFormedAfter(log: seq<Event>, event: Event)
    requires WellFormed(log)
    requires event.Dispose? ==> event.token < |log| && log[event.token].Register?
    ensures WellFormed(log + [event])
  {
  }

  /** The event at `i` registered a handler for the command, and was not disposed since. */
  ghost predicate IsLive(log: seq<Event>, command: string, i: nat)
    requires i < |log|
  {
    log[i].Register? && log[i].command == command && forall j :: i < j < |log| ==> log[j] != Dispose(i)
  }

  /** The handlers of the live registrations among the first `n` events, newest first. */
  ghost function LiveHandlers(log: seq<Event>, command: string, n: nat): seq<nat>
    requires n <= |log|
  {
    if n == 0 then []
    else if IsLive(log, command, n - 1) then [log[n - 1].handler] + LiveHandlers(log, command, n - 1)
    else LiveHandlers(log, command, n - 1)
  }

  lemma {:induction false} SameLive(log: seq<Event>, more: seq<Event>, command: string, n: nat)
    requires n <= |log| <= |more| && log == more[..|log|]
    requires forall i: nat :: i < n ==> (IsLive(log, command, i) <==> IsLive(more, command, i))
    ensures LiveHandlers(log, command, n) == LiveHandlers(more, command, n)
  {
    if n > 0 {
      SameLive(log, more, command, n - 1);
      assert IsLive(log, command, n - 1) <==> IsLive(more, command, n - 1);
    }
  }

  lemma LiveAfter(log: seq<Event>, event: Event, command: string, i: nat)
    requires i < |log|
    ensures IsLive(log + [event], command, i) <==> IsLive(log, command, i) && event != Dispose(i)
  {
    var more := log + [event];
    assert more[|log|] == event;
    assert forall j :: 0 <= j < |log| ==> more[j] == log[j];
    if IsLive(more, command, i) {
      forall j | i < j < |log|
        ensures log[j] != Dispose(i)
      {
        assert more[j] != Dispose(i);
      }
    }
  }

  /** While the registration `t` is not among them, disposing it leaves the live handlers alone. */
  lemma {:induction false} LiveElsewhere(log: seq<Event>, t: nat, command: string, n: nat)
    requires n <= |log| && (t < n ==> !IsLive(log, command, t))
    ensures LiveHandlers(log + [Dispose(t)], command, n) == LiveHandlers(log, command, n)
  {
    if n > 0 {
      LiveElsewhere(log, t, command, n - 1);
      LiveAfter(log, Dispose(t), command, n - 1);
    }
  }

  /** Between `t` and `n` only registrations of the handler `h` are live. */
  ghost predicate OnlyLive(log: seq<Event>, command: string, h: nat, t: nat, n: nat)
    requires n <= |log|
  {
    forall i: nat :: t < i < n && IsLive(log, command, i) ==> log[i].handler == h
  }

  /** No live registration of another handler lies between `t` and a live one of the handler `h`. */
  ghost predicate NothingBetween(log: seq<Event>, command: string, h: nat, t: nat, n: nat)
    requires n <= |log|
  {
    forall j: nat :: t < j < n && IsLive(log, command, j) && log[j].handler == h ==> OnlyLive(log, command, h, t, j)
  }

  /** Taking a live registration out of the middle is taking its handler off the front exactly
      when nothing else is in between. */
  lemma {:induction false} LiveFromFront(log: seq<Event>, t: nat, command: string, n: nat)
    requires t < n <= |log| && IsLive(log, command, t)
    ensures LiveHandlers(log, command, n) == [log[t].handler] + LiveHandlers(log + [Dispose(t)], command, n)
            <==> OnlyLive(log, command, log[t].handler, t, n)
  {
    var h := log[t].handler;
    LiveAfter(log, Dispose(t), command, n - 1);
    if t == n - 1 {
      LiveElsewhere(log, t, command, t);
    } else {
      LiveFromFront(log, t, command, n - 1);
      if IsLive(log, command, n - 1) {
        var g, rest := log[n - 1].handler, LiveHandlers(log, command, n - 1);
        var left := LiveHandlers(log + [Dispose(t)], command, n - 1);
        SameTails(g, rest, h, [g] + left);
      }
    }
  }

  /** One registration more to look at. */
  lemma NothingBetweenStep(log: seq<Event>, command: string, h: nat, t: nat, n: nat)
    requires t < n < |log|
    ensures NothingBetween(log, command, h, t, n + 1)
            <==> NothingBetween(log, command, h, t, n)
                 && (IsLive(log, command, n) && log[n].handler == h ==> OnlyLive(log, command, h, t, n))
    ensures OnlyLive(log, command, h, t, n) ==> NothingBetween(log, command, h, t, n)
  {
  }

  lemma WithoutFirst(g: nat, rest: seq<nat>, h: nat)
    ensures Without([g] + rest, h) == if g == h then rest else [g] + Without(rest, h)
  {
    assert ([g] + rest)[1..] == rest;
  }

  lemma LiveAtFront(log: seq<Event>, command: string, n: nat)
    requires n < |log|
    ensures LiveHandlers(log, command, n + 1)
            == if IsLive(log, command, n) then [log[n].handler] + LiveHandlers(log, command, n)
               else LiveHandlers(log, command, n)
  {
  }

  lemma LiveAtFrontAfter(log: seq<Event>, t: nat, command: string, n: nat)
    requires t < n < |log|
    ensures LiveHandlers(log + [Dispose(t)], command, n + 1)
            == if IsLive(log, command, n) then [log[n].handler] + LiveHandlers(log + [Dispose(t)], command, n)
               else LiveHandlers(log + [Dispose(t)], command, n)
  {
    LiveAfter(log, Dispose(t), command, n);
    assert (log + [Dispose(t)])[n] == log[n];
    LiveAtFront(log + [Dispose(t)], command, n);
  }

  lemma {:induction false} LiveDisposal(log: seq<Event>, t: nat, command: string, n: nat)
    requires t < n <= |log| && IsLive(log, command, t)
    ensures Without(LiveHandlers(log, command, n), log[t].handler) == LiveHandlers(log + [Dispose(t)], command, n)
            <==> NothingBetween(log, command, log[t].handler, t, n)
  {
    var h, m := log[t].handler, n - 1;
    var rest, left := LiveHandlers(log, command, m), LiveHandlers(log + [Dispose(t)], command, m);
    LiveAtFront(log, command, m);
    if t == m {
      LiveAfter(log, Dispose(t), command, m);
      WithoutFirst(h, rest, h);
      LiveElsewhere(log, t, command, t);
    } else {
      LiveDisposal(log, t, command, m);
      LiveAtFrontAfter(log, t, command, m);
      NothingBetweenStep(log, command, h, t, m);
      if IsLive(log, command, m) {
        var g := log[m].handler;
        WithoutFirst(g, rest, h);
        if g == h {
          LiveFromFront(log, t, command, m);
        } else {
          SameTails(g, Without(rest, h), g, left);
        }
      }
    }
  }

  lemma {:induction false} AmongTheLive(log: seq<Event>, command: string, h: nat, n: nat)
    requires n <= |log|
    ensures h in LiveHandlers(log, command, n)
            <==> exists i: nat :: i < n && IsLive(log, command, i) && log[i].handler == h
  {
    if n > 0 {
      AmongTheLive(log, command, h, n - 1);
    }
  }

  /** A disposal that does what it should: of a live registration with no other handler's between
      it and the newest live one of its own handler, or of one disposed before whose handler is
      not live again. */
  ghost predicate Orderly(log: seq<Event>, t: nat)
    requires t < |log| && log[t].Register?
  {
    var c, h := log[t].command, log[t].handler;
    if IsLive(log, c, t) then NothingBetween(log, c, h, t, |log|)
    else forall i: nat :: i < |log| && IsLive(log, c, i) ==> log[i].handler != h
  }

  /** From a stack that holds the live handlers, a disposal leads to another exactly when it is orderly. */
  lemma DisposalIsExact(log: seq<Event>, t: nat)
    requires t < |log| && log[t].Register?
    ensures var c := log[t].command;
      Without(LiveHandlers(log, c, |log|), log[t].handler) == LiveHandlers(log + [Dispose(t)], c, |log| + 1)
      <==> Orderly(log, t)
  {
    var c, h := log[t].command, log[t].handler;
    assert (log + [Dispose(t)])[|log|] == Dispose(t);
    if IsLive(log, c, t) {
      LiveDisposal(log, t, c, |log|);
    } else {
      LiveElsewhere(log, t, c, |log|);
      AmongTheLive(log, c, h, |log|);
      WithoutChanges(LiveHandlers(log, c, |log|), h);
    }
  }

  lemma LiveAfterRegistration(log: seq<Event>, c: string, h: nat, command: string)
    ensures LiveHandlers(log + [Register(c, h)], command, |log| + 1)
            == if c == command then [h] + LiveHandlers(log, command, |log|) else LiveHandlers(log, command, |log|)
  {
    var more := log + [Register(c, h)];
    assert more[|log|] == Register(c, h);
    assert more[..|log|] == log;
    forall i: nat | i < |log|
      ensures IsLive(log, command, i) <==> IsLive(more, command, i)
    {
      LiveAfter(log, Register(c, h), command, i);
    }
    SameLive(log, more, command, |log|);
  }

  /** The stack of every command holds the handlers of its undisposed registrations, newest first. */
  ghost predicate HoldsTheLive(log: seq<Event>)
    requires WellFormed(log)
  {
    forall command :: Stack(log, command) == LiveHandlers(log, command, |log|)
  }

  lemma WellFormedBefore(log: seq<Event>, n: nat)
    requires WellFormed(log) && n <= |log|
    ensures WellFormed(log[..n])
    ensures n < |log| && log[n].Dispose? ==> log[n].token < n && log[..n][log[n].token].Register?
  {
    var before := log[..n];
    forall i | 0 <= i < n && before[i].Dispose?
      ensures before[i].token < i && before[before[i].token].Register?
    {
      assert log[i] == before[i];
    }
  }

  /** Every disposal of the log is orderly when it happens. */
  ghost predicate OrderlyThroughout(log: seq<Event>)
    requires WellFormed(log)
  {
    forall n :: 0 <= n < |log| && log[n].Dispose? ==> OrderlyAt(log, n)
  }

  ghost predicate OrderlyAt(log: seq<Event>, n: nat)
    requires WellFormed(log) && n < |log| && log[n].Dispose?
  {
    WellFormedBefore(log, n);
    Orderly(log[..n], log[n].token)
  }

  ghost predicate HoldsAt(log: seq<Event>, n: nat)
    requires WellFormed(log) && n <= |log|
  {
    WellFormedBefore(log, n);
    HoldsTheLive(log[..n])
  }

  /** One event keeps the stacks right, unless it is a disposal that is not orderly. */
  lemma EventKeepsTheLive(log: seq<Event>, event: Event)
    requires WellFormed(log + [event]) && WellFormed(log) && HoldsTheLive(log)
    requires event.Dispose? ==> event.token < |log| && log[event.token].Register?
    ensures HoldsTheLive(log + [event]) <==> (event.Dispose? ==> Orderly(log, event.token))
  {
    var more := log + [event];
    forall command
      ensures Stack(more, command) == LiveHandlers(more, command, |more|)
              <==> (event.Dispose? && log[event.token].command == command ==> Orderly(log, event.token))
    {
      StackAfter(log, event, command);
      match event {
        case Register(c, h) =>
          LiveAfterRegistration(log, c, h, command);
        case Dispose(t) =>
          if log[t].command == command {
            DisposalIsExact(log, t);
          } else {
            LiveElsewhere(log, t, command, |log|);
            assert more[|log|] == event;
          }
      }
    }
    assert event.Dispose? ==>
      (HoldsTheLive(more) ==> Stack(more, log[event.token].command) == LiveHandlers(more, log[event.token].command, |more|));
  }

  lemma StepOfLog(log: seq<Event>, n: nat)
    requires WellFormed(log) && n < |log| && HoldsAt(log, n)
    ensures HoldsAt(log, n + 1) <==> (log[n].Dispose? ==> OrderlyAt(log, n))
  {
    WellFormedBefore(log, n);
    WellFormedBefore(log, n + 1);
    assert log[..n + 1] == log[..n] + [log[n]];
    EventKeepsTheLive(log[..n], log[n]);
  }

  lemma {:induction false} OrderlyUpTo(log: seq<Event>, n: nat)
    requires WellFormed(log) && n <= |log|
    requires forall i :: 0 <= i < n && log[i].Dispose? ==> OrderlyAt(log, i)
    ensures HoldsAt(log, n)
  {
    if n == 0 {
      assert log[..0] == [];
    } else {
      OrderlyUpTo(log, n - 1);
      StepOfLog(log, n - 1);
    }
  }

  /** Main result: over a whole log of registrations and disposals, of whatever handlers, the
      stacks hold the undisposed handlers, newest first, at every point if and only if every
      disposal is orderly. */
  lemma StackHoldsTheLiveExactly(log: seq<Event>)
    requires WellFormed(log)
    ensures (forall n :: 0 <= n <= |log| ==> HoldsAt(log, n)) <==> OrderlyThroughout(log)
  {
    if OrderlyThroughout(log) {
      forall n | 0 <= n <= |log|
        ensures HoldsAt(log, n)
      {
        OrderlyUpTo(log, n);
      }
    }
    if forall n :: 0 <= n <= |log| ==> HoldsAt(log, n) {
      forall n | 0 <= n < |log| && log[n].Dispose?
        ensures OrderlyAt(log, n)
      {
        StepOfLog(log, n);
      }
    }
  }

  lemma StackHoldsTheLive(log: seq<Event>, command: string)
    requires WellFormed(log) && OrderlyThroughout(log)
    ensures Stack(log, command) == LiveHandlers(log, command, |log|)
  {
    OrderlyUpTo(log, |log|);
    assert log[..|log|] == log;
  }

  /** No handler is registered for a command while a registration of it is live, and no
      registration is disposed twice. Registering a handler again after its disposal is fine. */
  ghost predicate OneAtATime(log: seq<Event>) {
    && (forall n, i :: 0 <= i < n < |log| && log[n].Register? && IsLive(log[..n], log[n].command, i) ==>
          log[i].handler != log[n].handler)
    && (forall i, j :: 0 <= i < j < |log| && log[i].Dispose? ==> log[i] != log[j])
  }

  /** Such a log is orderly, so its stacks are right. */
  lemma OneAtATimeIsOrderly(log: seq<Event>)
    requires WellFormed(log) && OneAtATime(log)
    ensures OrderlyThroughout(log)
  {
    forall n | 0 <= n < |log| && log[n].Dispose?
      ensures OrderlyAt(log, n)
    {
      WellFormedBefore(log, n);
      var before, t := log[..n], log[n].token;
      var c, h := before[t].command, before[t].handler;
      assert IsLive(before, c, t) by {
        forall j | t < j < n
          ensures before[j] != Dispose(t)
        {
          assert log[j] == before[j];
        }
      }
      forall j: nat | t < j < n && IsLive(before, c, j)
        ensures before[j].handler != h
      {
        assert log[j] == before[j] && log[t] == before[t];
        var earlier := log[..j];
        forall k | t < k < j
          ensures earlier[k] != Dispose(t)
        {
          assert before[k] == earlier[k];
        }
        assert earlier[t] == log[t] && IsLive(earlier, c, t);
      }
    }
  }

  /** A disposal called once more after the handler was registered again takes the new registration. */
  lemma StaleDisposalTakesTheNewOne(command: string, h: nat)
    ensures var log := [Register(command, h), Dispose(0), Register(command, h), Dispose(0)];
      && WellFormed(log) && !OrderlyThroughout(log)
      && Stack(log, command) == [] && LiveHandlers(log, command, 4) == [h]
  {
    var log := [Register(command, h), Dispose(0), Register(command, h), Dispose(0)];
    var three := [Register(command, h), Dispose(0), Register(command, h)];
    assert log[..3] == three;
    assert three[..2] == [Register(command, h), Dispose(0)];
    assert three[..2][..1] == [Register(command, h)];
    assert three[..2][..1][..0] == [];
    assert Stack(three[..2][..1], command) == [h];
    assert Stack(three[..2], command) == [];
    assert Stack(three, command) == [h];
    assert log[1] == Dispose(0) && three[1] == Dispose(0);
    assert !IsLive(log, command, 0) && !IsLive(log, command, 1) && IsLive(log, command, 2) && !IsLive(log, command, 3);
    assert !IsLive(three, command, 0) && IsLive(three, command, 2);
    assert LiveHandlers(log, command, 1) == [];
    assert LiveHandlers(log, command, 2) == [];
    assert !OrderlyAt(log, 3);
  }

  /** Two registrations of one handler around another: disposing the older one moves it down. */
  lemma SharedHandlerIsMovedDown(command: string, h: nat, g: nat)
    requires h != g
    ensures var log := [Register(command, h), Register(command, g), Register(command, h), Dispose(0)];
      WellFormed(log) && Stack(log, command) == [g, h] && LiveHandlers(log, command, 4) == [h, g]
  {
    var log := [Register(command, h), Register(command, g), Register(command, h), Dispose(0)];
    assert log[..3] == [Register(command, h), Register(command, g), Register(command, h)];
    assert log[..3][..2] == [Register(command, h), Register(command, g)];
    assert log[..3][..2][..1] == [Register(command, h)];
    assert log[..3][..2][..1][..0] == [];
    assert Stack(log[..3][..2][..1], command) == [h];
    assert Stack(log[..3][..2], command) == [g, h];
    assert Stack(log[..3], command) == [h, g, h];
    assert log[3] == Dispose(0);
    assert !IsLive(log, command, 0) && !IsLive(log, command, 3);
    assert IsLive(log, command, 1) && IsLive(log, command, 2);
    assert LiveHandlers(log, command, 1) == [];
    assert LiveHandlers(log, command, 2) == [g];
    assert LiveHandlers(log, command, 3) == [h, g];
  }
}

/** The list of recently used commands. */
module RecentCommands {

  /** A command as this list sees it; an empty label is no label. */
  datatype Command = Command(id: string, text: string, delegate: string)

  predicate Labelled(c: Command) {
    c.text != ""
  }

  function WithoutFirst(recent: seq<Command>, id: string): seq<Command> {
    if recent == [] then []
    else if recent[0].id == id then recent[1..]
    else [recent[0]] + WithoutFirst(recent[1..], id)
  }

  function Added(recent: seq<Command>, c: Command): seq<Command> {
    if Labelled(c) then [c] + WithoutFirst(recent, c.id) else recent
  }

  /** The list after using these commands one after the other. */
  function Recents(used: seq<Command>): seq<Command> {
    if used == [] then [] else Added(Recents(used[..|used| - 1]), used[|used| - 1])
  }

  /** The command used at `i` has a label, and none with a label and its id was used later. */
  ghost predicate LatestUse(used: seq<Command>, i: nat)
    requires i < |used|
  {
    used[i].text != "" && forall j :: i < j < |used| && used[j].text != "" ==> used[j].id != used[i].id
  }

  /** The latest uses among the first `n`, the last one first. */
  ghost function LatestUses(used: seq<Command>, n: nat): seq<Command>
    requires n <= |used|
  {
    if n == 0 then []
    else if LatestUse(used, n - 1) then [used[n - 1]] + LatestUses(used, n - 1)
    else LatestUses(used, n - 1)
  }

  lemma LatestUseAfter(used: seq<Command>, c: Command, i: nat)
    requires i < |used|
    ensures LatestUse(used + [c], i) <==> LatestUse(used, i) && !(c.text != "" && c.id == used[i].id)
  {
    var more := used + [c];
    assert more[|used|] == c && more[i] == used[i];
    if LatestUse(more, i) {
      forall j | i < j < |used| && used[j].text != ""
        ensures used[j].id != used[i].id
      {
        assert more[j] == used[j];
      }
    }
  }

  lemma {:induction false} OthersStay(used: seq<Command>, c: Command, n: nat)
    requires n <= |used|
    requires Labelled(c) ==> forall i: nat :: i < n && LatestUse(used, i) ==> used[i].id != c.id
    ensures LatestUses(used + [c], n) == LatestUses(used, n)
    ensures Labelled(c) ==> WithoutFirst(LatestUses(used, n), c.id) == LatestUses(used, n)
  {
    if n > 0 {
      OthersStay(used, c, n - 1);
      LatestUseAfter(used, c, n - 1);
    }
  }

  /** Using a command again takes its former use off the list. */
  lemma {:induction false} FormerUseGoes(used: seq<Command>, c: Command, n: nat)
    requires n <= |used|
    ensures LatestUses(used + [c], n) == if Labelled(c) then WithoutFirst(LatestUses(used, n), c.id) else LatestUses(used, n)
  {
    if n > 0 {
      LatestUseAfter(used, c, n - 1);
      if Labelled(c) && LatestUse(used, n - 1) && used[n - 1].id == c.id {
        OnlyOneUse(used, n - 1);
        OthersStay(used, c, n - 1);
      } else {
        FormerUseGoes(used, c, n - 1);
      }
    }
  }

  lemma OnlyOneUse(used: seq<Command>, k: nat)
    requires k < |used| && LatestUse(used, k)
    ensures forall i: nat :: i < k && LatestUse(used, i) ==> used[i].id != used[k].id
  {
  }

  /** Over any history the list holds the labelled commands, each by its latest use, latest first. */
  lemma {:induction false} RecentsAreLatestUses(used: seq<Command>)
    ensures Recents(used) == LatestUses(used, |used|)
  {
    if used != [] {
      var n := |used| - 1;
      RecentsAreLatestUses(used[..n]);
      FormerUseGoes(used[..n], used[n], n);
      assert used[..n] + [used[n]] == used;
    }
  }

  ghost predicate UsedLast(used: seq<Command>, n: nat, c: Command)
    requires n <= |used|
  {
    exists k: nat :: k < n && LatestUse(used, k) && used[k] == c
  }

  lemma {:induction false} ListedWhenUsedLast(used: seq<Command>, n: nat, c: Command)
    requires n <= |used|
    ensures c in LatestUses(used, n) <==> UsedLast(used, n, c)
  {
    if n > 0 {
      ListedWhenUsedLast(used, n - 1, c);
      if UsedLast(used, n - 1, c) {
        var k: nat :| k < n - 1 && LatestUse(used, k) && used[k] == c;
      }
    }
  }

  ghost predicate DistinctIds(r: seq<Command>) {
    forall i, j :: 0 <= i < j < |r| ==> r[i].id != r[j].id
  }

  /** One entry per id. */
  lemma {:induction false} OnePerId(used: seq<Command>, n: nat)
    requires n <= |used|
    ensures DistinctIds(LatestUses(used, n))
  {
    if n > 0 {
      OnePerId(used, n - 1);
      var rest := LatestUses(used, n - 1);
      if LatestUse(used, n - 1) {
        forall j | 0 <= j < |rest|
          ensures rest[j].id != used[n - 1].id
        {
          ListedWhenUsedLast(used, n - 1, rest[j]);
          var k: nat :| k < n - 1 && LatestUse(used, k) && used[k] == rest[j];
        }
      }
    }
  }

  lemma {:induction false} WithoutFirstSplices(recent: seq<Command>, id: string, index: nat)
    requires index <= |recent| && forall j :: 0 <= j < index ==> recent[j].id != id
    requires index < |recent| ==> recent[index].id == id
    ensures WithoutFirst(recent, id) == if index < |recent| then recent[..index] + recent[index + 1..] else recent
  {
    if recent != [] && index > 0 {
      var rest := recent[1..];
      assert forall j :: 0 <= j < |rest| ==> rest[j] == recent[j + 1];
      WithoutFirstSplices(rest, id, index - 1);
      TakenOutBehind(recent, index);
    }
  }

  lemma TakenOutBehind(recent: seq<Command>, index: nat)
    requires 0 < index <= |recent|
    ensures [recent[0]] + recent[1..] == recent
    ensures index < |recent| ==>
      [recent[0]] + (recent[1..][..index - 1] + recent[1..][index..]) == recent[..index] + recent[index + 1..]
  {
  }
}

/** The registry: handlers by command, delegation, and recently used commands. */
module CommandRegistry {
  import opened HandlerStacks
  import opened Options
  import opened RecentCommands
  import opened Sequences

  /** The commands that leave the decision to another one do so at most `steps` times from `id` on. */
  ghost predicate ChainEnds(commands: map<string, Command>, id: string, steps: nat)
    decreases steps
  {
    id in commands && commands[id].delegate != "" ==> steps > 0 && ChainEnds(commands, commands[id].delegate, steps - 1)
  }

  ghost function Target(commands: map<string, Command>, id: string, steps: nat): string
    requires ChainEnds(commands, id, steps)
    decreases steps
  {
    if id in commands && commands[id].delegate != "" then Target(commands, commands[id].delegate, steps - 1) else id
  }

  ghost predicate DelegatesAt(commands: map<string, Command>, path: seq<string>, i: int)
    requires 0 < i < |path|
  {
    path[i - 1] in commands && commands[path[i - 1]].delegate == path[i] && path[i] != ""
  }

  /** The commands met on the way from `id`, each the delegate of the one before, until one that
      delegates no further. */
  ghost predicate IsDelegation(commands: map<string, Command>, id: string, path: seq<string>) {
    && |path| > 0 && path[0] == id
    && (forall i :: 0 < i < |path| ==> DelegatesAt(commands, path, i))
    && (path[|path| - 1] in commands ==> commands[path[|path| - 1]].delegate == "")
  }

  lemma DelegationGoesOn(commands: map<string, Command>, id: string, path: seq<string>)
    requires IsDelegation(commands, id, path) && |path| > 1
    ensures id in commands && commands[id].delegate == path[1] != ""
    ensures IsDelegation(commands, path[1], path[1..]) && path[1..][|path| - 2] == path[|path| - 1]
  {
    var rest := path[1..];
    assert DelegatesAt(commands, path, 1);
    forall i | 0 < i < |rest|
      ensures DelegatesAt(commands, rest, i)
    {
      assert DelegatesAt(commands, path, i + 1);
    }
  }

  lemma {:induction false} DelegationEnds(commands: map<string, Command>, id: string, path: seq<string>, steps: nat)
    requires ChainEnds(commands, id, steps) && IsDelegation(commands, id, path)
    ensures Target(commands, id, steps) == path[|path| - 1]
    decreases steps
  {
    if |path| > 1 {
      DelegationGoesOn(commands, id, path);
      DelegationEnds(commands, path[1], path[1..], steps - 1);
    }
  }

  /** There is such a way exactly from where the delegations end. */
  lemma {:induction false} DelegationExists(commands: map<string, Command>, id: string, steps: nat) returns (path: seq<string>)
    requires ChainEnds(commands, id, steps)
    ensures IsDelegation(commands, id, path)
    decreases steps
  {
    if id in commands && commands[id].delegate != "" {
      var rest := DelegationExists(commands, commands[id].delegate, steps - 1);
      path := [id] + rest;
      forall i | 0 < i < |path|
        ensures DelegatesAt(commands, path, i)
      {
        if i > 1 {
          assert DelegatesAt(commands, rest, i - 1);
        }
      }
    } else {
      path := [id];
    }
  }

  lemma {:induction false} DelegationIsChain(commands: map<string, Command>, id: string, path: seq<string>)
    requires IsDelegation(commands, id, path)
    ensures ChainEnds(commands, id, |path| - 1)
    decreases |path|
  {
    if |path| > 1 {
      DelegationGoesOn(commands, id, path);
      DelegationIsChain(commands, path[1], path[1..]);
    }
  }

  /** The delegations from a command end exactly when there is a way to their end. */
  lemma EndsAtSomeCommand(commands: map<string, Command>, id: string)
    ensures Ends(commands, id) <==> exists path :: IsDelegation(commands, id, path)
  {
    if steps: nat :| ChainEnds(commands, id, steps) {
      var path := DelegationExists(commands, id, steps);
    }
    if path :| IsDelegation(commands, id, path) {
      DelegationIsChain(commands, id, path);
    }
  }

  /** `k` delegations from `id` on, if there are as many. */
  ghost function Delegate(commands: map<string, Command>, id: string, k: nat): Option<string>
    decreases k
  {
    if k == 0 then Some(id)
    else if id in commands && commands[id].delegate != "" then Delegate(commands, commands[id].delegate, k - 1)
    else None
  }

  lemma {:induction false} ChainGoesOn(commands: map<string, Command>, id: string, k: nat, steps: nat)
    requires ChainEnds(commands, id, steps) && Delegate(commands, id, k).Some?
    ensures k <= steps && ChainEnds(commands, Delegate(commands, id, k).value, steps - k)
    decreases k
  {
    if k > 0 {
      ChainGoesOn(commands, commands[id].delegate, k - 1, steps - 1);
    }
  }

  /** A command that comes back to itself has no end to its chain. */
  lemma {:induction false} CycleNeverEnds(commands: map<string, Command>, id: string, k: nat, steps: nat)
    requires k > 0 && Delegate(commands, id, k) == Some(id)
    ensures !ChainEnds(commands, id, steps)
    decreases steps
  {
    if ChainEnds(commands, id, steps) {
      ChainGoesOn(commands, id, k, steps);
      CycleNeverEnds(commands, id, k, steps - k);
    }
  }

  lemma {:induction false} NoEndYet(commands: map<string, Command>, id: string, n: nat, k: nat)
    requires !ChainEnds(commands, id, n) && k <= n
    ensures Delegate(commands, id, k).Some? && Delegate(commands, id, k).value in commands
    decreases k
  {
    if k > 0 {
      NoEndYet(commands, commands[id].delegate, n - 1, k - 1);
    }
  }

  lemma {:induction false} DelegateOfDelegate(commands: map<string, Command>, id: string, i: nat, j: nat)
    requires Delegate(commands, id, i).Some?
    ensures Delegate(commands, Delegate(commands, id, i).value, j) == Delegate(commands, id, i + j)
    decreases i
  {
    if i > 0 {
      DelegateOfDelegate(commands, commands[id].delegate, i - 1, j);
    }
  }

  /** No command is met twice on the way from `id`. */
  ghost predicate MetOnce(commands: map<string, Command>, id: string) {
    forall i: nat, j: nat :: i < j && Delegate(commands, id, i).Some? ==>
      Delegate(commands, id, i) != Delegate(commands, id, j)
  }

  /** The commands met on the first `n` places of the way. */
  ghost function Met(commands: map<string, Command>, id: string, n: nat): set<string> {
    if n == 0 then {}
    else
      match Delegate(commands, id, n - 1)
      case None => Met(commands, id, n - 1)
      case Some(c) => Met(commands, id, n - 1) + {c}
  }

  ghost predicate MetBefore(commands: map<string, Command>, id: string, n: nat, c: string) {
    exists k: nat :: k < n && Delegate(commands, id, k) == Some(c)
  }

  lemma {:induction false} MetOnTheWay(commands: map<string, Command>, id: string, n: nat, c: string)
    ensures c in Met(commands, id, n) <==> MetBefore(commands, id, n, c)
  {
    if n > 0 {
      MetOnTheWay(commands, id, n - 1, c);
      var last := Delegate(commands, id, n - 1);
      assert last == Some(c) ==> MetBefore(commands, id, n, c);
      if MetBefore(commands, id, n - 1, c) {
        var k: nat :| k < n - 1 && Delegate(commands, id, k) == Some(c);
        assert k < n;
      }
    }
  }

  lemma {:induction false} MetAreMany(commands: map<string, Command>, id: string, n: nat)
    requires MetOnce(commands, id) && forall k: nat :: k < n ==> Delegate(commands, id, k).Some?
    ensures |Met(commands, id, n)| == n
  {
    if n > 0 {
      MetAreMany(commands, id, n - 1);
      MetOnTheWay(commands, id, n - 1, Delegate(commands, id, n - 1).value);
    }
  }

  lemma SubsetIsNoLarger<T>(a: set<T>, b: set<T>)
    requires a <= b
    ensures |a| <= |b|
  {
    assert b == a + (b - a);
  }

  ghost predicate Ends(commands: map<string, Command>, id: string) {
    exists steps: nat :: ChainEnds(commands, id, steps)
  }

  lemma EndsWithin(commands: map<string, Command>, id: string, steps: nat)
    requires ChainEnds(commands, id, steps)
    ensures Ends(commands, id)
  {
  }

  lemma WithoutRepetitionItEnds(commands: map<string, Command>, id: string)
    requires MetOnce(commands, id)
    ensures ChainEnds(commands, id, |commands|)
  {
    var n := |commands|;
    if !ChainEnds(commands, id, n) {
      forall k: nat | k <= n
        ensures Delegate(commands, id, k).Some? && Delegate(commands, id, k).value in commands
      {
        NoEndYet(commands, id, n, k);
      }
      forall c | c in Met(commands, id, n + 1)
        ensures c in commands.Keys
      {
        MetOnTheWay(commands, id, n + 1, c);
      }
      MetAreMany(commands, id, n + 1);
      SubsetIsNoLarger(Met(commands, id, n + 1), commands.Keys);
    }
  }

  /** Main result on delegation: a chain ends if and only if it meets no command twice, whether it
      starts on a cycle or only leads into one, and then within as many steps as there are
      commands. */
  lemma ChainEndsExactly(commands: map<string, Command>, id: string)
    ensures Ends(commands, id) <==> MetOnce(commands, id)
    ensures MetOnce(commands, id) <==> ChainEnds(commands, id, |commands|)
  {
    if MetOnce(commands, id) {
      WithoutRepetitionItEnds(commands, id);
      EndsWithin(commands, id, |commands|);
    }
    if ChainEnds(commands, id, |commands|) {
      EndsWithin(commands, id, |commands|);
    }
    if steps: nat :| ChainEnds(commands, id, steps) {
      forall i: nat, j: nat | i < j && Delegate(commands, id, i).Some?
        ensures Delegate(commands, id, i) != Delegate(commands, id, j)
      {
        if Delegate(commands, id, i) == Delegate(commands, id, j) {
          ChainGoesOn(commands, id, i, steps);
          DelegateOfDelegate(commands, id, i, j - i);
          CycleNeverEnds(commands, Delegate(commands, id, i).value, j - i, steps - i);
        }
      }
    }
  }

  /** The newest handler of the list that says it is enabled. */
  ghost predicate IsNewestEnabled(handlers: seq<nat>, enabled: nat -> bool, r: Option<nat>) {
    match r
    case None => forall i :: 0 <= i < |handlers| ==> !enabled(handlers[i])
    case Some(h) =>
      exists i :: 0 <= i < |handlers| && handlers[i] == h && enabled(h) && forall j :: 0 <= j < i ==> !enabled(handlers[j])
  }

  /** The first enabled handler registered for the command, or none if it has none that is enabled. */
  ghost predicate AnswersFor(handlers: map<string, seq<nat>>, command: string, enabled: nat -> bool, r: Option<nat>) {
    match r
    case None => command in handlers ==> forall i :: 0 <= i < |handlers[command]| ==> !enabled(handlers[command][i])
    case Some(h) =>
      && command in handlers
      && exists i :: 0 <= i < |handlers[command]| && handlers[command][i] == h && enabled(h)
                     && forall j :: 0 <= j < i ==> !enabled(handlers[command][j])
  }

  function Listed(handlers: map<string, seq<nat>>, command: string): seq<nat> {
    if command in handlers then handlers[command] else []
  }

  ghost predicate Shows(handlers: map<string, seq<nat>>, log: seq<Event>)
    requires WellFormed(log)
  {
    forall command :: Listed(handlers, command) == Stack(log, command)
  }

  lemma RegistrationLogged(handlers: map<string, seq<nat>>, log: seq<Event>, commandId: string, handler: nat)
    requires WellFormed(log) && Shows(handlers, log)
    ensures WellFormed(log + [Register(commandId, handler)])
    ensures Shows(handlers[commandId := [handler] + Listed(handlers, commandId)], log + [Register(commandId, handler)])
  {
    var event := Register(commandId, handler);
    var after := handlers[commandId := [handler] + Listed(handlers, commandId)];
    WellFormedAfter(log, event);
    forall command
      ensures Listed(after, command) == Stack(log + [event], command)
    {
      StackAfter(log, event, command);
      assert Listed(handlers, command) == Stack(log, command);
    }
  }

  lemma DisposalLogged(handlers: map<string, seq<nat>>, log: seq<Event>, token: nat)
    requires WellFormed(log) && Shows(handlers, log) && token < |log| && log[token].Register?
    ensures var c, h := log[token].command, log[token].handler;
      var after := if h in Listed(handlers, c) then handlers[c := Without(Listed(handlers, c), h)] else handlers;
      WellFormed(log + [Dispose(token)]) && Shows(after, log + [Dispose(token)])
  {
    var c, h, event := log[token].command, log[token].handler, Dispose(token);
    var list := Listed(handlers, c);
    var after := if h in list then handlers[c := Without(list, h)] else handlers;
    WellFormedAfter(log, event);
    WithoutChanges(list, h);
    forall command
      ensures Listed(after, command) == Stack(log + [event], command)
    {
      StackAfter(log, event, command);
      assert Listed(handlers, command) == Stack(log, command);
    }
  }

  class Registry {
    var handlers: map<string, seq<nat>>
    var commands: map<string, Command>
    var recent: seq<Command>
    /** All registrations and disposals, and all commands reported as used. */
    ghost var log: seq<Event>
    ghost var used: seq<Command>

    ghost predicate Valid()
      reads this
    {
      && WellFormed(log) && Shows(handlers, log)
      && recent == Recents(used)
    }

    constructor (commands: map<string, Command>)
      ensures Valid() && this.commands == commands && log == [] && used == []
    {
      handlers, this.commands, recent, log, used := map[], commands, [], [], [];
    }

    method RegisterHandler(commandId: string, handler: nat) returns (ghost token: nat)
      requires Valid()
      modifies this`handlers, this`log
      ensures Valid() && token == |old(log)| && log == old(log) + [Register(commandId, handler)]
    {
      token := |log|;
      RegistrationLogged(handlers, log, commandId, handler);
      handlers := handlers[commandId := [handler] + Listed(handlers, commandId)];
      log := log + [Register(commandId, handler)];
    }

    /** The `dispose` of the registration `token`, of this handler for this command. */
    method DisposeHandler(ghost token: nat, commandId: string, handler: nat)
      requires Valid() && token < |log| && log[token] == Register(commandId, handler)
      modifies this`handlers, this`log
      ensures Valid() && log == old(log) + [Dispose(token)]
    {
      var list := Listed(handlers, commandId);
      var idx := IndexOf(list, handler);
      WithoutIsSpliced(list, handler);
      DisposalLogged(handlers, log, token);
      if idx >= 0 {
        handlers := handlers[commandId := Spliced(list, idx)];
      }
      log := log + [Dispose(token)];
    }

    /** `enabled` is what each handler answers for the arguments at hand. */
    method GetActiveHandler(commandId: string, enabled: nat -> bool, ghost steps: nat) returns (r: Option<nat>)
      requires ChainEnds(commands, commandId, steps)
      ensures IsNewestEnabled(Listed(handlers, Target(commands, commandId, steps)), enabled, r)
      ensures exists path :: IsDelegation(commands, commandId, path)
      ensures forall path :: IsDelegation(commands, commandId, path) ==>
        AnswersFor(handlers, path[|path| - 1], enabled, r)
        && (Valid() && OrderlyThroughout(log) ==> IsNewestLive(log, path[|path| - 1], enabled, r, |log|))
      decreases steps
    {
      ActiveAtTheEnd(commandId, steps);
      if commandId in commands && commands[commandId].delegate != "" {
        r := GetActiveHandler(commands[commandId].delegate, enabled, steps - 1);
        AnswerMeaning(commandId, enabled, steps, r);
        return;
      }
      var list := Listed(handlers, commandId);
      for i := 0 to |list|
        invariant forall j :: 0 <= j < i ==> !enabled(list[j])
      {
        if enabled(list[i]) {
          r := Some(list[i]);
          AnswerMeaning(commandId, enabled, steps, r);
          return;
        }
      }
      r := None;
      AnswerMeaning(commandId, enabled, steps, r);
    }

    lemma ActiveAtTheEnd(commandId: string, steps: nat)
      requires ChainEnds(commands, commandId, steps)
      ensures exists path :: IsDelegation(commands, commandId, path)
    {
      var path := DelegationExists(commands, commandId, steps);
    }

    /** What an answer means at the end of the delegations, and over the log. */
    lemma AnswerMeaning(commandId: string, enabled: nat -> bool, steps: nat, r: Option<nat>)
      requires ChainEnds(commands, commandId, steps)
      requires IsNewestEnabled(Listed(handlers, Target(commands, commandId, steps)), enabled, r)
      ensures forall path :: IsDelegation(commands, commandId, path) ==>
        AnswersFor(handlers, path[|path| - 1], enabled, r)
        && (Valid() && OrderlyThroughout(log) ==> IsNewestLive(log, path[|path| - 1], enabled, r, |log|))
    {
      forall path | IsDelegation(commands, commandId, path)
        ensures AnswersFor(handlers, path[|path| - 1], enabled, r)
        ensures Valid() && OrderlyThroughout(log) ==> IsNewestLive(log, path[|path| - 1], enabled, r, |log|)
      {
        DelegationEnds(commands, commandId, path, steps);
        var target := path[|path| - 1];
        if Valid() && OrderlyThroughout(log) {
          assert Listed(handlers, target) == Stack(log, target);
          ActiveHandlerMeaning(log, target, enabled, r);
        }
      }
    }

    method SetRecentCommands(commands: seq<Command>) returns (r: seq<Command>)
      requires Valid()
      modifies this`recent, this`used
      ensures Valid() && used == old(used) + commands && r == recent
    {
      for i := 0 to |commands|
        invariant Valid() && used == old(used) + commands[..i]
      {
        AddRecentCommand(commands[i]);
      }
      return recent;
    }

    method AddRecentCommand(c: Command)
      requires Valid()
      modifies this`recent, this`used
      ensures Valid() && used == old(used) + [c]
      ensures c.text == "" ==> recent == old(recent)
      ensures c.text != "" ==>
        || ((forall j :: 0 <= j < |old(recent)| ==> old(recent)[j].id != c.id) && recent == [c] + old(recent))
        || exists k :: 0 <= k < |old(recent)| && old(recent)[k].id == c.id
                       && recent == [c] + (old(recent)[..k] + old(recent)[k + 1..])
    {
      used := used + [c];
      assert used[..|used| - 1] == old(used);
      if !Labelled(c) {
        return;
      }
      var index := 0;
      while index < |recent| && recent[index].id != c.id
        invariant 0 <= index <= |recent| && forall j :: 0 <= j < index ==> recent[j].id != c.id
      {
        index := index + 1;
      }
      WithoutFirstSplices(recent, c.id, index);
      if index < |recent| {
        recent := recent[..index] + recent[index + 1..];
      }
      recent := [c] + recent;
    }
  }

  /** The event at `i` is the last of the first `n` to have registered a live enabled handler. */
  ghost predicate IsLastEnabled(log: seq<Event>, target: string, enabled: nat -> bool, i: nat, n: nat)
    requires i < n <= |log|
  {
    && IsLive(log, target, i) && enabled(log[i].handler)
    && forall j: nat :: i < j < n && IsLive(log, target, j) ==> !enabled(log[j].handler)
  }

  ghost predicate IsNewestLive(log: seq<Event>, target: string, enabled: nat -> bool, r: Option<nat>, n: nat)
    requires n <= |log|
  {
    match r
    case None => forall i: nat :: i < n && IsLive(log, target, i) ==> !enabled(log[i].handler)
    case Some(h) => exists i: nat :: i < n && IsLastEnabled(log, target, enabled, i, n) && log[i].handler == h
  }

  /** Over any interleaving of registrations and orderly disposals: the active handler of a
      command is the newest undisposed enabled one at the end of its delegations. */
  lemma ActiveHandlerMeaning(log: seq<Event>, target: string, enabled: nat -> bool, r: Option<nat>)
    requires WellFormed(log) && OrderlyThroughout(log)
    requires IsNewestEnabled(Stack(log, target), enabled, r)
    ensures IsNewestLive(log, target, enabled, r, |log|)
  {
    StackHoldsTheLive(log, target);
    NewestLive(log, target, enabled, r, |log|);
  }

  lemma NewestLiveStays(log: seq<Event>, target: string, enabled: nat -> bool, r: Option<nat>, n: nat)
    requires 0 < n <= |log| && IsNewestLive(log, target, enabled, r, n - 1)
    requires IsLive(log, target, n - 1) ==> !enabled(log[n - 1].handler)
    ensures IsNewestLive(log, target, enabled, r, n)
  {
    if r.Some? {
      var i: nat :| i < n - 1 && IsLastEnabled(log, target, enabled, i, n - 1) && log[i].handler == r.value;
      assert IsLastEnabled(log, target, enabled, i, n);
    }
  }

  lemma {:induction false} NewestLive(log: seq<Event>, target: string, enabled: nat -> bool, r: Option<nat>, n: nat)
    requires n <= |log| && IsNewestEnabled(LiveHandlers(log, target, n), enabled, r)
    ensures IsNewestLive(log, target, enabled, r, n)
  {
    if n > 0 {
      var list, rest := LiveHandlers(log, target, n), LiveHandlers(log, target, n - 1);
      if !IsLive(log, target, n - 1) {
        NewestLive(log, target, enabled, r, n - 1);
        NewestLiveStays(log, target, enabled, r, n);
      } else if !enabled(log[n - 1].handler) {
        assert list == [log[n - 1].handler] + rest;
        assert forall i :: 0 <= i < |rest| ==> rest[i] == list[i + 1];
        NewestLive(log, target, enabled, r, n - 1);
        NewestLiveStays(log, target, enabled, r, n);
      } else {
        assert list[0] == log[n - 1].handler;
        assert IsLastEnabled(log, target, enabled, n - 1, n);
      }
    }
  }
}
