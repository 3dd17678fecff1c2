/**
 The wait indicator of a page: a counter of open operations, and a class on the document that is taken off
 some time after the last of them is over. Events and timers may interleave in any order.
 */
module WaitCounter {

  /**
   The script's variables, and what the browser still has to call back. `queued` callbacks wait for the
   document to be ready; `decrements`, `finals` and `unloads` are timers of 0, 400 and 1000 milliseconds;
   a final timer remembers the value of `lastWait` it was set with.
   */
  datatype State = State(
    requestCount: int,
    lastWait: nat,
    waiting: bool,
    domReady: bool,
    loaded: bool,
    tokens: nat,
    openTokens: set<nat>,
    ajax: nat,
    left: nat,
    unloads: nat,
    queued: nat,
    decrements: nat,
    finals: multiset<nat>)

  datatype Event =
    | Wait
    | Over(token: nat)
    | DomReady
    | Load
    | BeforeUnload
    | Unload
    | AjaxSend
    | AjaxComplete
    | UnloadTimer
    | DecrementTimer
    | FinalTimer(id: nat)

  const Start: State := State(1, 0, true, false, false, 0, {}, 0, 0, 0, 0, 0, multiset{})

  /** Operations that have begun and are not over: the page load, tokens, requests, and leaving the page. */
  function Open(s: State): nat {
    (if s.loaded then 0 else 1) + |s.openTokens| + s.ajax + s.left + s.unloads
  }

  predicate TimersPending(s: State) {
    s.unloads > 0 || s.queued > 0 || s.decrements > 0 || s.finals != multiset{}
  }

  /** What the browser can do next. A token can be closed again after it is closed. */
  predicate Enabled(s: State, e: Event) {
    match e
    case Wait => true
    case Over(token) => token < s.tokens
    case DomReady => !s.domReady
    case Load => !s.loaded
    case BeforeUnload => true
    case Unload => true
    case AjaxSend => true
    case AjaxComplete => s.ajax > 0
    case UnloadTimer => s.unloads > 0
    case DecrementTimer => s.decrements > 0
    case FinalTimer(id) => id in s.finals
  }

  function Begin(s: State): State {
    s.(requestCount := s.requestCount + 1, waiting := true)
  }

  /** A decrement is scheduled, through the ready queue while the document is not ready. */
  function RemoveWait(s: State): State {
    if s.domReady then s.(decrements := s.decrements + 1) else s.(queued := s.queued + 1)
  }

  function Decrement(s: State): State {
    var s' := s.(requestCount := s.requestCount - 1);
    if s'.requestCount < 1
    then s'.(lastWait := s'.lastWait + 1, finals := s'.finals + multiset{s'.lastWait + 1})
    else s'
  }

  function Finish(s: State, id: nat): State {
    if id == s.lastWait && s.requestCount < 1 then s.(requestCount := 0, waiting := false) else s
  }

  function Step(s: State, e: Event): State
    requires Enabled(s, e)
  {
    match e
    case Wait => Begin(s).(tokens := s.tokens + 1, openTokens := s.openTokens + {s.tokens})
    case Over(token) => if token in s.openTokens then RemoveWait(s.(openTokens := s.openTokens - {token})) else s
    case DomReady => s.(domReady := true, queued := 0, decrements := s.decrements + s.queued)
    case Load => RemoveWait(s.(loaded := true))
    case BeforeUnload => Begin(s).(unloads := s.unloads + 1)
    case Unload => Begin(s).(left := s.left + 1)
    case AjaxSend => Begin(s).(ajax := s.ajax + 1)
    case AjaxComplete => RemoveWait(s.(ajax := s.ajax - 1))
    case UnloadTimer => RemoveWait(s.(unloads := s.unloads - 1))
    case DecrementTimer => Decrement(s.(decrements := s.decrements - 1))
    case FinalTimer(id) => Finish(s.(finals := s.finals - multiset{id}), id)
  }

  // The invariant -------------------------------------------------------------------------------------------------

  /** The counter is what is open and what is about to be counted down; while it is positive, the class is there. */
  predicate Inv(s: State) {
    && s.requestCount == Open(s) + s.queued + s.decrements
    && (s.requestCount > 0 ==> s.waiting)
    && (s.requestCount == 0 && s.waiting ==> s.lastWait in s.finals)
    && (forall t | t in s.openTokens :: t < s.tokens)
    && (s.domReady ==> s.queued == 0)
  }

  lemma StartIsInv()
    ensures Inv(Start)
  {
  }

  lemma BeginOpens(s: State, s': State)
    requires Inv(s) && s'.requestCount == s.requestCount + 1 && s'.waiting
    requires Open(s') + s'.queued + s'.decrements == Open(s) + s.queued + s.decrements + 1
    requires (forall t | t in s'.openTokens :: t < s'.tokens) && (s'.domReady ==> s'.queued == 0)
    ensures Inv(s')
  {
  }

  /** An operation that ends is counted down later: the counter is not touched yet. */
  lemma RemoveWaitMoves(s: State, ended: State)
    requires Inv(s)
    requires ended.requestCount == s.requestCount && ended.waiting == s.waiting && ended.lastWait == s.lastWait
    requires ended.finals == s.finals && ended.queued == s.queued && ended.decrements == s.decrements
    requires ended.domReady == s.domReady && ended.tokens == s.tokens && ended.openTokens <= s.openTokens
    requires Open(ended) + 1 == Open(s)
    ensures Inv(RemoveWait(ended))
  {
  }

  /** Every event and every timer keeps the counter and the class right. */
  lemma StepKeepsInv(s: State, e: Event)
    requires Inv(s) && Enabled(s, e)
    ensures Inv(Step(s, e))
  {
    hide Open, Inv;
    match e
    case Wait => WaitKeeps(s);
    case Over(token) =>
      if token in s.openTokens {
        OverKeeps(s, token);
      }
    case DomReady => ReadyKeeps(s);
    case Load => EndKeeps(s, s.(loaded := true), e);
    case BeforeUnload => BeginKeeps(s, e);
    case Unload => BeginKeeps(s, e);
    case AjaxSend => BeginKeeps(s, e);
    case AjaxComplete => EndKeeps(s, s.(ajax := s.ajax - 1), e);
    case UnloadTimer => EndKeeps(s, s.(unloads := s.unloads - 1), e);
    case DecrementTimer => DecrementKeeps(s);
    case FinalTimer(id) => FinishKeeps(s, id);
  }

  lemma WaitKeeps(s: State)
    requires Inv(s)
    ensures Inv(Step(s, Wait))
  {
    assert s.tokens !in s.openTokens;
    BeginOpens(s, Step(s, Wait));
  }

  lemma OverKeeps(s: State, token: nat)
    requires Inv(s) && token in s.openTokens
    ensures Inv(RemoveWait(s.(openTokens := s.openTokens - {token})))
  {
    RemoveWaitMoves(s, s.(openTokens := s.openTokens - {token}));
  }

  lemma ReadyKeeps(s: State)
    requires Inv(s)
    ensures Inv(s.(domReady := true, queued := 0, decrements := s.decrements + s.queued))
  {
  }

  lemma BeginKeeps(s: State, e: Event)
    requires Inv(s) && Enabled(s, e) && (e.BeforeUnload? || e.Unload? || e.AjaxSend?)
    ensures Inv(Step(s, e))
  {
    BeginOpens(s, Step(s, e));
  }

  lemma EndKeeps(s: State, ended: State, e: Event)
    requires Inv(s) && Enabled(s, e)
    requires match e
             case Load => ended == s.(loaded := true)
             case AjaxComplete => ended == s.(ajax := s.ajax - 1)
             case UnloadTimer => ended == s.(unloads := s.unloads - 1)
             case _ => false
    ensures Inv(RemoveWait(ended))
  {
    RemoveWaitMoves(s, ended);
  }

  lemma DecrementKeeps(s: State)
    requires Inv(s) && Enabled(s, DecrementTimer)
    ensures Inv(Step(s, DecrementTimer))
  {
  }

  lemma FinishKeeps(s: State, id: nat)
    requires Inv(s) && Enabled(s, FinalTimer(id))
    ensures Inv(Step(s, FinalTimer(id)))
  {
  }

  // Whole runs ----------------------------------------------------------------------------------------------------

  ghost predicate CanRun(s: State, events: seq<Event>)
    decreases |events|
  {
    events == [] || (Enabled(s, events[0]) && CanRun(Step(s, events[0]), events[1..]))
  }

  function Run(s: State, events: seq<Event>): State
    requires CanRun(s, events)
    decreases |events|
  {
    if events == [] then s else Run(Step(s, events[0]), events[1..])
  }

  /**
   In every reachable state the counter is right; the class is there while an operation is open; and it is
   gone when nothing is open and no timer is pending.
   */
  lemma {:induction false} EveryRun(s: State, events: seq<Event>)
    requires Inv(s) && CanRun(s, events)
    ensures var r := Run(s, events);
            && Inv(r)
            && r.requestCount == Open(r) + r.queued + r.decrements
            && (Open(r) > 0 ==> r.waiting)
            && (Open(r) == 0 && !TimersPending(r) ==> !r.waiting)
    decreases |events|
  {
    hide Inv, Step, Enabled;
    if events == [] {
      InvSays(s);
    } else {
      StepKeepsInv(s, events[0]);
      EveryRun(Step(s, events[0]), events[1..]);
    }
  }

  lemma InvSays(s: State)
    requires Inv(s)
    ensures s.requestCount == Open(s) + s.queued + s.decrements
    ensures Open(s) > 0 ==> s.waiting
    ensures Open(s) == 0 && !TimersPending(s) ==> !s.waiting
  {
  }

  lemma FromTheStart(events: seq<Event>)
    requires CanRun(Start, events)
    ensures var r := Run(Start, events);
            && (Open(r) > 0 ==> r.waiting)
            && (Open(r) == 0 && !TimersPending(r) ==> !r.waiting)
  {
    StartIsInv();
    EveryRun(Start, events);
  }

  /** Only a final timer takes the class off, and only when nothing is open or about to be counted down. */
  lemma RemovedWhenNothingIsOpen(s: State, e: Event)
    requires Inv(s) && Enabled(s, e) && s.waiting && !Step(s, e).waiting
    ensures e == FinalTimer(s.lastWait) && Open(s) == 0 && s.queued == 0 && s.decrements == 0
  {
  }

  /** Leaving the page for good keeps the class. */
  lemma {:induction false} LeftStaysWaiting(s: State, events: seq<Event>)
    requires Inv(s) && CanRun(s, events) && s.left > 0
    ensures Run(s, events).left > 0 && Run(s, events).waiting
    decreases |events|
  {
    hide Inv;
    if events == [] {
      InvSays(s);
    } else {
      StepKeepsInv(s, events[0]);
      assert Step(s, events[0]).left >= s.left;
      LeftStaysWaiting(Step(s, events[0]), events[1..]);
    }
  }

  // Timers run out ------------------------------------------------------------------------------------------------

  predicate IsTimer(e: Event) {
    e.UnloadTimer? || e.DecrementTimer? || e.FinalTimer?
  }

  function Pending(s: State): nat {
    3 * s.unloads + 2 * s.decrements + |s.finals|
  }

  lemma TimersRunOut(s: State, e: Event)
    requires Enabled(s, e) && IsTimer(e) && s.domReady && s.queued == 0
    ensures var r := Step(s, e); Pending(r) < Pending(s) && r.domReady && r.queued == 0
  {
    if e.FinalTimer? {
      assert s.finals == (s.finals - multiset{e.id}) + multiset{e.id};
    }
  }

  /**
   The timers of a ready page run out, in whatever order they fire; and when they have, the class is there
   exactly when something is open.
   */
  lemma {:induction false} TimersSettle(s: State, events: seq<Event>)
    requires Inv(s) && s.domReady && CanRun(s, events) && forall e | e in events :: IsTimer(e)
    ensures |events| + Pending(Run(s, events)) <= Pending(s)
    ensures var r := Run(s, events); !TimersPending(r) ==> (r.waiting <==> Open(r) > 0)
    decreases |events|
  {
    hide Step, Open;
    if events == [] {
      InvSays(s);
    } else {
      StepKeepsInv(s, events[0]);
      TimersRunOut(s, events[0]);
      TimersSettle(Step(s, events[0]), events[1..]);
    }
  }

  // What opens and what closes --------------------------------------------------------------------------------------

  /** A token, a request and leaving the page open one operation each; what ends one makes one fewer open. */
  lemma OpenCounts(s: State, e: Event)
    requires Inv(s) && Enabled(s, e)
    ensures var r := Step(s, e);
            Open(r) == (match e
                        case Wait => Open(s) + 1
                        case BeforeUnload => Open(s) + 1
                        case Unload => Open(s) + 1
                        case AjaxSend => Open(s) + 1
                        case Over(token) => if token in s.openTokens then Open(s) - 1 else Open(s)
                        case Load => Open(s) - 1
                        case AjaxComplete => Open(s) - 1
                        case UnloadTimer => Open(s) - 1
                        case DomReady => Open(s)
                        case DecrementTimer => Open(s)
                        case FinalTimer(_) => Open(s))
  {
    if e.Wait? {
      assert s.tokens !in s.openTokens;
    } else if e.Over? {
    }
  }

  /** What has been opened can be ended. */
  lemma OpenedCanEnd(s: State, e: Event)
    requires Enabled(s, e)
    ensures e.Wait? ==> s.tokens in Step(s, e).openTokens && Enabled(Step(s, e), Over(s.tokens))
    ensures e.AjaxSend? ==> Enabled(Step(s, e), AjaxComplete)
    ensures e.BeforeUnload? ==> Enabled(Step(s, e), UnloadTimer)
  {
  }

  lemma {:induction false} TimersOpenNothing(s: State, events: seq<Event>)
    requires Inv(s) && CanRun(s, events) && forall e | e in events :: IsTimer(e)
    ensures var r := Run(s, events); Open(r) - r.unloads == Open(s) - s.unloads
    decreases |events|
  {
    hide Open, Inv;
    if events != [] {
      var e := events[0];
      StepKeepsInv(s, e);
      OpenCounts(s, e);
      assert e in events && Step(s, e).unloads == if e.UnloadTimer? then s.unloads - 1 else s.unloads;
      TimersOpenNothing(Step(s, e), events[1..]);
    }
  }

  /**
   Asking to leave a ready page with nothing open puts the class on, and when the timers have run out it is
   off again; leaving it puts the class on for good.
   */
  lemma BeforeUnloadPasses(s: State, events: seq<Event>)
    requires Inv(s) && s.domReady && Open(s) == 0 && CanRun(Step(s, BeforeUnload), events)
    requires (forall e | e in events :: IsTimer(e)) && !TimersPending(Run(Step(s, BeforeUnload), events))
    ensures Step(s, BeforeUnload).waiting && !Run(Step(s, BeforeUnload), events).waiting
  {
    hide Open;
    var s' := Step(s, BeforeUnload);
    StepKeepsInv(s, BeforeUnload);
    OpenCounts(s, BeforeUnload);
    assert s.unloads == 0 by { UnloadsAreOpen(s); }
    TimersOpenNothing(s', events);
    TimersSettle(s', events);
  }

  lemma UnloadsAreOpen(s: State)
    ensures s.unloads <= Open(s)
  {
  }

  /** A page that is ready and loaded, and does nothing else, stops waiting. */
  lemma LoadedPageStops()
    ensures var events := [DomReady, Load, DecrementTimer, FinalTimer(1)];
            CanRun(Start, events) && Start.waiting && !Run(Start, events).waiting
  {
    var s1 := Step(Start, DomReady);
    var s2 := Step(s1, Load);
    var s3 := Step(s2, DecrementTimer);
    var s4 := Step(s3, FinalTimer(1));
    var last := [FinalTimer(1)];
    var timers := [DecrementTimer] + last;
    var loading := [Load] + timers;
    var events := [DomReady] + loading;
    assert CanRun(s4, []) && last[1..] == [] && timers[1..] == last && loading[1..] == timers && events[1..] == loading;
    assert CanRun(s3, last) && Run(s3, last) == s4;
    assert CanRun(s2, timers) && CanRun(s1, loading);
    assert Run(s2, timers) == s4 && Run(s1, loading) == s4;
  }

  lemma UnloadStays(s: State, events: seq<Event>)
    requires Inv(s) && CanRun(Step(s, Unload), events)
    ensures Run(Step(s, Unload), events).waiting
  {
    StepKeepsInv(s, Unload);
    LeftStaysWaiting(Step(s, Unload), events);
  }

  // The script ----------------------------------------------------------------------------------------------------

  class Token {
    var closed: bool
    ghost const id: nat

    constructor (ghost id: nat)
      ensures !closed && this.id == id
    {
      closed := false;
      this.id := id;
    }
  }

  class Page {
    var requestCount: int
    var lastWait: nat
    var waitClass: bool
    ghost var state: State
    ghost var tokens: seq<Token>

    /** The script's variables are those of the state, and a token is open as long as it is not closed. */
    ghost predicate Valid()
      reads this, tokens
    {
      && Inv(state)
      && requestCount == state.requestCount && lastWait == state.lastWait && waitClass == state.waiting
      && |tokens| == state.tokens
      && forall i | 0 <= i < |tokens| :: tokens[i].id == i && (tokens[i].closed <==> i !in state.openTokens)
    }

    constructor ()
      ensures Valid() && state == Start && tokens == []
    {
      requestCount, lastWait, waitClass := 1, 0, true;
      state, tokens := Start, [];
    }

    method Begin()
      modifies this`requestCount, this`waitClass
      ensures requestCount == old(requestCount) + 1 && waitClass
    {
      requestCount := requestCount + 1;
      waitClass := true;
    }

    method StartWaiting() returns (token: Token)
      requires Valid()
      modifies this
      ensures Valid() && fresh(token) && !token.closed
      ensures state == Step(old(state), Wait) && tokens == old(tokens) + [token]
    {
      StepKeepsInv(state, Wait);
      Begin();
      token := new Token(|tokens|);
      state := Step(state, Wait);
      tokens := tokens + [token];
    }

    /** Closing a token a second time does nothing. */
    method Over(token: Token)
      requires Valid() && token in tokens
      modifies this`state, token
      ensures Valid() && token.closed && tokens == old(tokens)
      ensures state == Step(old(state), Event.Over(token.id))
      ensures old(token.closed) ==> state == old(state)
    {
      StepKeepsInv(state, Event.Over(token.id));
      if !token.closed {
        token.closed := true;
      }
      state := Step(state, Event.Over(token.id));
    }

    /** The events that begin an operation. */
    method OnBegin(ghost e: Event)
      requires Valid() && (e.BeforeUnload? || e.Unload? || e.AjaxSend?)
      modifies this`requestCount, this`waitClass, this`state
      ensures Valid() && state == Step(old(state), e)
    {
      StepKeepsInv(state, e);
      Begin();
      state := Step(state, e);
    }

    /** The events that end one, and the ready document, touch no variable of the script: they only schedule. */
    method OnEnd(ghost e: Event)
      requires Valid() && Enabled(state, e)
      requires e.DomReady? || e.Load? || e.AjaxComplete? || e.UnloadTimer?
      modifies this`state
      ensures Valid() && state == Step(old(state), e)
    {
      StepKeepsInv(state, e);
      state := Step(state, e);
    }

    method OnDecrementTimer() returns (myWait: nat)
      requires Valid() && Enabled(state, DecrementTimer)
      modifies this`requestCount, this`lastWait, this`state
      ensures Valid() && state == Step(old(state), DecrementTimer)
      ensures requestCount < 1 ==> myWait == lastWait && myWait in state.finals
    {
      StepKeepsInv(state, DecrementTimer);
      requestCount := requestCount - 1;
      myWait := 0;
      if requestCount < 1 {
        lastWait := lastWait + 1;
        myWait := lastWait;
      }
      state := Step(state, DecrementTimer);
    }

    method OnFinalTimer(myWait: nat)
      requires Valid() && Enabled(state, FinalTimer(myWait))
      modifies this`requestCount, this`waitClass, this`state
      ensures Valid() && state == Step(old(state), FinalTimer(myWait))
    {
      StepKeepsInv(state, FinalTimer(myWait));
      if myWait == lastWait && requestCount < 1 {
        requestCount := 0;
        waitClass := false;
      }
      state := Step(state, FinalTimer(myWait));
    }
  }
}
