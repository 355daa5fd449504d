/** The compare-and-swap lists that hold reference segments and heap regions: any number of
    threads push, and the collector steals from the head. Loading the head, storing or loading
    a next pointer and the compare-and-swap are separate steps of an interleaving. */
module LockFree {
  import opened Options
  import opened Sequences

  /** An address; 0 is the null pointer. */
  type Addr = nat

  datatype Pusher =
    | Resting
    | Owning(node: Addr)
    | Loaded(node: Addr, head: Addr)
    | Linked(node: Addr, head: Addr)

  datatype Stealer =
    | Waiting
    | SawHead(head: Addr)
    | SawNext(head: Addr, next: Addr)

  /** Memory, the threads' positions, and the history: which node was made at each address
      last, and which nodes have been pushed and stolen so far. */
  datatype State = State(
    head: Addr,
    next: map<Addr, Addr>,
    live: set<Addr>,
    pushers: seq<Pusher>,
    stealers: seq<Stealer>,
    ids: map<Addr, nat>,
    made: nat,
    pushed: seq<nat>,
    stolen: seq<nat>)

  datatype Act =
    | Make(t: nat, node: Addr)
    | LoadHead(t: nat)
    | StoreNext(t: nat)
    | SwapIn(t: nat)
    | SeeHead(t: nat)
    | SeeNext(t: nat)
    | SwapOut(t: nat)

  function Next(s: State, a: Addr): Addr {
    if a in s.next then s.next[a] else 0
  }

  function IdOf(s: State, a: Addr): nat {
    if a in s.ids then s.ids[a] else 0
  }

  /** A step of pusher t. */
  function Push(s: State, act: Act): Option<State>
    requires act.t < |s.pushers|
  {
    var t := act.t;
    match (act, s.pushers[t])
    case (Make(_, a), Resting) =>
      // an allocator hands out no address in use
      if a == 0 || a in s.live then None
      else Some(s.(next := s.next[a := 0], live := s.live + {a}, ids := s.ids[a := s.made], made := s.made + 1,
                   pushers := s.pushers[t := Owning(a)]))
    case (LoadHead(_), Owning(a)) => Some(s.(pushers := s.pushers[t := Loaded(a, s.head)]))
    case (StoreNext(_), Loaded(a, h)) => Some(s.(next := s.next[a := h], pushers := s.pushers[t := Linked(a, h)]))
    case (SwapIn(_), Linked(a, h)) =>
      if s.head == h then
        Some(s.(head := a, pushed := s.pushed + [IdOf(s, a)], pushers := s.pushers[t := Resting]))
      else
        Some(s.(pushers := s.pushers[t := Owning(a)]))
    case _ => None
  }

  /** A step of stealer t. What it has stolen may be freed and its address used again. */
  function Steal(s: State, act: Act): Option<State>
    requires act.t < |s.stealers|
  {
    var t := act.t;
    match (act, s.stealers[t])
    case (SeeHead(_), Waiting) =>
      if s.head == 0 then Some(s) else Some(s.(stealers := s.stealers[t := SawHead(s.head)]))
    case (SeeNext(_), SawHead(h)) => Some(s.(stealers := s.stealers[t := SawNext(h, Next(s, h))]))
    case (SwapOut(_), SawNext(h, n)) =>
      var s' := s.(stealers := s.stealers[t := Waiting]);
      Some(if s.head == h then s'.(head := n, live := s.live - {h}, stolen := s.stolen + [IdOf(s, h)]) else s')
    case _ => None
  }

  function Do(s: State, act: Act): Option<State> {
    if act.Make? || act.LoadHead? || act.StoreNext? || act.SwapIn? then
      if act.t < |s.pushers| then Push(s, act) else None
    else
      if act.t < |s.stealers| then Steal(s, act) else None
  }

  function Run(s: State, acts: seq<Act>): Option<State>
    decreases |acts|
  {
    if acts == [] then Some(s)
    else
      match Do(s, acts[0])
      case None => None
      case Some(s') => Run(s', acts[1..])
  }

  function Init(pushers: nat, stealers: nat): State {
    State(0, map[], {}, seq(pushers, _ => Resting), seq(stealers, _ => Waiting), map[], 0, [], [])
  }

  // ----- what is promised

  function At(list: seq<Addr>, i: nat): Addr {
    if i < |list| then list[i] else 0
  }

  /** Following next pointers from the head visits exactly these nodes and then ends. */
  predicate IsList(s: State, list: seq<Addr>) {
    && s.head == At(list, 0)
    && forall i :: 0 <= i < |list| ==> list[i] != 0 && Next(s, list[i]) == At(list, i + 1)
  }

  function Ids(s: State, list: seq<Addr>): (r: seq<nat>)
    ensures |r| == |list| && forall i :: 0 <= i < |r| ==> r[i] == IdOf(s, list[i])
  {
    if list == [] then [] else [IdOf(s, list[0])] + Ids(s, list[1..])
  }

  /** The list is acyclic and duplicate-free, no node was stolen twice, and the nodes pushed
      so far are those on the list and those stolen. */
  ghost predicate SafeWith(s: State, list: seq<Addr>) {
    && IsList(s, list) && Distinct(list)
    && Distinct(s.stolen)
    && multiset(s.pushed) == multiset(Ids(s, list)) + multiset(s.stolen)
  }

  ghost predicate Safe(s: State) {
    exists list :: SafeWith(s, list)
  }

  // ----- the invariant

  ghost predicate PushersOk(s: State, list: seq<Addr>) {
    && (forall t :: 0 <= t < |s.pushers| && !s.pushers[t].Resting? ==>
      s.pushers[t].node in s.live && s.pushers[t].node != 0 && s.pushers[t].node !in list)
    && (forall t, u :: 0 <= t < u < |s.pushers| && !s.pushers[t].Resting? && !s.pushers[u].Resting? ==>
      s.pushers[t].node != s.pushers[u].node)
    && (forall t :: 0 <= t < |s.pushers| && s.pushers[t].Linked? ==> Next(s, s.pushers[t].node) == s.pushers[t].head)
  }

  ghost predicate StealerOk(s: State, list: seq<Addr>) {
    && |s.stealers| <= 1
    && (forall t :: 0 <= t < |s.stealers| && !s.stealers[t].Waiting? ==> s.stealers[t].head in list)
    && (forall t :: 0 <= t < |s.stealers| && s.stealers[t].SawNext? ==> Next(s, s.stealers[t].head) == s.stealers[t].next)
  }

  ghost predicate IdsOk(s: State, list: seq<Addr>) {
    && (forall a <- list :: a in s.live)
    && (forall a <- s.live :: a in s.ids && s.ids[a] < s.made && s.ids[a] !in s.stolen)
    && (forall a <- s.live, b <- s.live :: s.ids[a] == s.ids[b] ==> a == b)
    && (forall id <- s.stolen :: id < s.made)
  }

  ghost predicate Inv(s: State, list: seq<Addr>) {
    SafeWith(s, list) && PushersOk(s, list) && StealerOk(s, list) && IdsOk(s, list)
  }

  lemma {:induction false} IdsSame(s: State, s': State, list: seq<Addr>)
    requires forall a <- list :: IdOf(s', a) == IdOf(s, a)
    ensures Ids(s', list) == Ids(s, list)
  {
    if list != [] {
      IdsSame(s, s', list[1..]);
    }
  }

  /** What a step does to the stack the memory represents: a successful swap-in pushes its
      node, a successful swap-out pops the node it returns, every other step does nothing. */
  ghost predicate Effect(s: State, list: seq<Addr>, s': State, list': seq<Addr>) {
    var before, after := Ids(s, list), Ids(s', list');
    || (s'.pushed == s.pushed && s'.stolen == s.stolen && after == before)
    || (|after| > 0 && s'.pushed == s.pushed + [after[0]] && s'.stolen == s.stolen && after == [after[0]] + before)
    || (|before| > 0 && s'.pushed == s.pushed && s'.stolen == s.stolen + [before[0]] && before == [before[0]] + after)
  }

  lemma MakeKeeps(s: State, t: nat, a: Addr, list: seq<Addr>)
    requires Inv(s, list) && t < |s.pushers| && Push(s, Make(t, a)).Some?
    ensures Inv(Push(s, Make(t, a)).value, list) && Effect(s, list, Push(s, Make(t, a)).value, list)
  {
    hide Distinct, Ids, IsList, PushersOk, IdsOk;
    MakeList(s, t, a, list);
    MakePushers(s, t, a, list);
    MakeIds(s, t, a, list);
  }

  lemma MakeList(s: State, t: nat, a: Addr, list: seq<Addr>)
    requires IsList(s, list) && IdsOk(s, list) && t < |s.pushers| && Push(s, Make(t, a)).Some?
    ensures IsList(Push(s, Make(t, a)).value, list) && Ids(Push(s, Make(t, a)).value, list) == Ids(s, list)
    ensures StealerOk(s, list) ==> StealerOk(Push(s, Make(t, a)).value, list)
  {
    hide Ids;
    IdsSame(s, Push(s, Make(t, a)).value, list);
  }

  lemma MakePushers(s: State, t: nat, a: Addr, list: seq<Addr>)
    requires PushersOk(s, list) && IdsOk(s, list) && t < |s.pushers| && Push(s, Make(t, a)).Some?
    ensures PushersOk(Push(s, Make(t, a)).value, list)
  {
  }

  lemma MakeIds(s: State, t: nat, a: Addr, list: seq<Addr>)
    requires IdsOk(s, list) && t < |s.pushers| && Push(s, Make(t, a)).Some?
    ensures IdsOk(Push(s, Make(t, a)).value, list)
  {
  }

  lemma LoadKeeps(s: State, t: nat, list: seq<Addr>)
    requires Inv(s, list) && t < |s.pushers| && Push(s, LoadHead(t)).Some?
    ensures Inv(Push(s, LoadHead(t)).value, list) && Effect(s, list, Push(s, LoadHead(t)).value, list)
  {
    hide Distinct, Ids, At;
    IdsSame(s, Push(s, LoadHead(t)).value, list);
  }

  lemma StoreKeeps(s: State, t: nat, list: seq<Addr>)
    requires Inv(s, list) && t < |s.pushers| && Push(s, StoreNext(t)).Some?
    ensures Inv(Push(s, StoreNext(t)).value, list) && Effect(s, list, Push(s, StoreNext(t)).value, list)
  {
    hide Distinct, Ids;
    var s' := Push(s, StoreNext(t)).value;
    IdsSame(s, s', list);
    assert IsList(s', list);
    assert PushersOk(s', list);
  }

  lemma RetryKeeps(s: State, t: nat, list: seq<Addr>)
    requires Inv(s, list) && t < |s.pushers| && s.pushers[t].Linked? && s.head != s.pushers[t].head
    ensures Inv(Push(s, SwapIn(t)).value, list) && Effect(s, list, Push(s, SwapIn(t)).value, list)
  {
    hide Distinct, Ids, At;
    IdsSame(s, Push(s, SwapIn(t)).value, list);
  }

  lemma SwappedIn(s: State, t: nat, list: seq<Addr>)
    requires Inv(s, list) && t < |s.pushers| && s.pushers[t].Linked? && s.head == s.pushers[t].head
    ensures Inv(Push(s, SwapIn(t)).value, [s.pushers[t].node] + list)
    ensures Effect(s, list, Push(s, SwapIn(t)).value, [s.pushers[t].node] + list)
  {
    hide Ids, Distinct, At, IsList, PushersOk, IdsOk, StealerOk;
    var s', a := Push(s, SwapIn(t)).value, s.pushers[t].node;
    SwappedInList(s, t, list);
    SwappedInRest(s, t, list);
    assert [IdOf(s, a)] + Ids(s, list) == Ids(s', [a] + list);
  }

  lemma SwappedInList(s: State, t: nat, list: seq<Addr>)
    requires IsList(s, list) && Distinct(list) && PushersOk(s, list)
    requires t < |s.pushers| && s.pushers[t].Linked? && s.head == s.pushers[t].head
    ensures IsList(Push(s, SwapIn(t)).value, [s.pushers[t].node] + list) && Distinct([s.pushers[t].node] + list)
    ensures Ids(Push(s, SwapIn(t)).value, [s.pushers[t].node] + list) == [IdOf(s, s.pushers[t].node)] + Ids(s, list)
  {
    var list' := [s.pushers[t].node] + list;
    assert list'[1..] == list;
    IdsSame(s, Push(s, SwapIn(t)).value, list);
    assert forall i :: 1 <= i < |list'| ==> list'[i] == list[i - 1];
  }

  lemma SwappedInRest(s: State, t: nat, list: seq<Addr>)
    requires PushersOk(s, list) && StealerOk(s, list) && IdsOk(s, list)
    requires t < |s.pushers| && s.pushers[t].Linked? && s.head == s.pushers[t].head
    ensures PushersOk(Push(s, SwapIn(t)).value, [s.pushers[t].node] + list)
    ensures StealerOk(Push(s, SwapIn(t)).value, [s.pushers[t].node] + list)
    ensures IdsOk(Push(s, SwapIn(t)).value, [s.pushers[t].node] + list)
  {
    var a := s.pushers[t].node;
    assert forall x :: x in [a] + list <==> x == a || x in list;
  }

  lemma SwappedOut(s: State, t: nat, list: seq<Addr>)
    requires Inv(s, list) && t < |s.stealers| && s.stealers[t].SawNext? && s.head == s.stealers[t].head
    ensures list != []
    ensures Inv(Steal(s, SwapOut(t)).value, list[1..]) && Effect(s, list, Steal(s, SwapOut(t)).value, list[1..])
  {
    hide Ids, Distinct, At, IsList, PushersOk, IdsOk, StealerOk;
    SwappedOutList(s, t, list);
    SwappedOutRest(s, t, list);
  }

  lemma SwappedOutList(s: State, t: nat, list: seq<Addr>)
    requires IsList(s, list) && Distinct(list) && StealerOk(s, list) && IdsOk(s, list) && Distinct(s.stolen)
    requires t < |s.stealers| && s.stealers[t].SawNext? && s.head == s.stealers[t].head
    ensures list != [] && s.head == list[0] && Distinct(Steal(s, SwapOut(t)).value.stolen)
    ensures IsList(Steal(s, SwapOut(t)).value, list[1..]) && Distinct(list[1..])
    ensures Ids(s, list) == [IdOf(s, list[0])] + Ids(Steal(s, SwapOut(t)).value, list[1..])
  {
    hide IdsOk;
    assert s.stealers[t].head in list;
    assert list[0] == s.head && Next(s, list[0]) == At(list, 1);
    var s' := Steal(s, SwapOut(t)).value;
    IdsSame(s, s', list[1..]);
    StolenIsNew(s, list);
    hide StealerOk;
    forall i | 0 <= i < |list[1..]| ensures list[1..][i] != 0 && Next(s', list[1..][i]) == At(list[1..], i + 1) {
      assert list[1..][i] == list[i + 1];
    }
  }

  lemma StolenIsNew(s: State, list: seq<Addr>)
    requires IdsOk(s, list) && list != [] && Distinct(s.stolen)
    ensures Distinct(s.stolen + [IdOf(s, list[0])])
  {
    assert list[0] in list;
  }

  lemma SwappedOutRest(s: State, t: nat, list: seq<Addr>)
    requires Distinct(list) && PushersOk(s, list) && StealerOk(s, list) && IdsOk(s, list)
    requires t < |s.stealers| && s.stealers[t].SawNext? && s.head == s.stealers[t].head && list != [] && list[0] == s.head
    ensures PushersOk(Steal(s, SwapOut(t)).value, list[1..])
    ensures StealerOk(Steal(s, SwapOut(t)).value, list[1..])
    ensures IdsOk(Steal(s, SwapOut(t)).value, list[1..])
  {
    assert list[0] in list && forall x <- list[1..] :: x in list && x != list[0];
  }

  lemma LooksOwned(s: State, s': State, list: seq<Addr>)
    requires PushersOk(s, list) && IdsOk(s, list) && s' == s.(stealers := s'.stealers)
    ensures PushersOk(s', list) && IdsOk(s', list) && (IsList(s, list) ==> IsList(s', list))
  {
  }

  /** The other steps of the stealer touch nothing that is shared. */
  lemma LooksKeep(s: State, act: Act, list: seq<Addr>)
    requires Inv(s, list) && act.t < |s.stealers| && Steal(s, act).Some?
    requires act.SwapOut? ==> s.head != s.stealers[act.t].head
    ensures Inv(Steal(s, act).value, list) && Effect(s, list, Steal(s, act).value, list)
  {
    hide Distinct, Ids, IdsOk, PushersOk, StealerOk, IsList, Steal;
    LooksOnly(s, act, list);
    var s' := Steal(s, act).value;
    IdsSame(s, s', list);
    LooksOwned(s, s', list);
  }

  lemma LooksOnly(s: State, act: Act, list: seq<Addr>)
    requires IsList(s, list) && StealerOk(s, list) && act.t < |s.stealers| && Steal(s, act).Some?
    requires act.SwapOut? ==> s.head != s.stealers[act.t].head
    ensures var s' := Steal(s, act).value;
      s' == s.(stealers := s'.stealers) && StealerOk(s', list)
  {
    assert s.head != 0 ==> list != [] && s.head == list[0] && list[0] in list;
  }

  /** With one stealer, every step of every thread keeps the invariant and acts on the list as
      a push, as a pop, or not at all. */
  lemma StepIsStackStep(s: State, act: Act, list: seq<Addr>) returns (list': seq<Addr>)
    requires Inv(s, list) && Do(s, act).Some?
    ensures Inv(Do(s, act).value, list') && Effect(s, list, Do(s, act).value, list')
  {
    hide Inv, Effect;
    list' := list;
    match act {
      case Make(t, a) => MakeKeeps(s, t, a, list);
      case LoadHead(t) => LoadKeeps(s, t, list);
      case StoreNext(t) => StoreKeeps(s, t, list);
      case SwapIn(t) =>
        if s.head == s.pushers[t].head {
          SwappedIn(s, t, list);
          list' := [s.pushers[t].node] + list;
        } else {
          RetryKeeps(s, t, list);
        }
      case SwapOut(t) =>
        if s.head == s.stealers[t].head {
          SwappedOut(s, t, list);
          list' := list[1..];
        } else {
          LooksKeep(s, act, list);
        }
      case _ => LooksKeep(s, act, list);
    }
  }

  lemma {:induction false} RunKeeps(s: State, acts: seq<Act>, list: seq<Addr>) returns (list': seq<Addr>)
    requires Inv(s, list) && Run(s, acts).Some?
    ensures Inv(Run(s, acts).value, list')
    decreases |acts|
  {
    if acts == [] {
      list' := list;
    } else {
      var next := StepIsStackStep(s, acts[0], list);
      list' := RunKeeps(Do(s, acts[0]).value, acts[1..], next);
    }
  }

  /** However many threads push, and however the steps interleave, one stealer keeps the list safe. */
  lemma OneStealerIsSafe(pushers: nat, stealers: nat, acts: seq<Act>)
    requires stealers <= 1 && Run(Init(pushers, stealers), acts).Some?
    ensures Safe(Run(Init(pushers, stealers), acts).value)
  {
    assert Inv(Init(pushers, stealers), []);
    var list := RunKeeps(Init(pushers, stealers), acts, []);
  }

  // ----- nothing is lost

  /** The numbers of the nodes made so far, in the order of their making. */
  function Numbers(made: nat): multiset<nat> {
    if made == 0 then multiset{} else Numbers(made - 1) + multiset{made - 1}
  }

  /** The number of the node that a pusher still has to push. */
  function InHand(s: State, x: Pusher): multiset<nat> {
    if x.Resting? then multiset{} else multiset{IdOf(s, x.node)}
  }

  /** The numbers of the nodes that the first n pushers still have to push. */
  function Held(s: State, n: nat): multiset<nat>
    requires n <= |s.pushers|
  {
    if n == 0 then multiset{} else Held(s, n - 1) + InHand(s, s.pushers[n - 1])
  }

  /** Every node made has been pushed or is in the hands of a pusher. */
  ghost predicate NoneLost(s: State) {
    Numbers(s.made) == multiset(s.pushed) + Held(s, |s.pushers|)
  }

  lemma {:induction false} HeldSame(s: State, s': State, n: nat)
    requires n <= |s.pushers| == |s'.pushers| && forall u :: 0 <= u < n ==> InHand(s', s'.pushers[u]) == InHand(s, s.pushers[u])
    ensures Held(s', n) == Held(s, n)
  {
    if n > 0 {
      HeldSame(s, s', n - 1);
    }
  }

  lemma Swapped(a: multiset<nat>, b: multiset<nat>, c: multiset<nat>)
    ensures a + b + c == a + c + b
  {
  }

  /** What one pusher takes up or lays down is the difference. */
  lemma {:induction false} HeldBut(s: State, s': State, t: nat, n: nat)
    requires t < n <= |s.pushers| == |s'.pushers|
    requires forall u :: 0 <= u < n && u != t ==> InHand(s', s'.pushers[u]) == InHand(s, s.pushers[u])
    ensures Held(s', n) + InHand(s, s.pushers[t]) == Held(s, n) + InHand(s', s'.pushers[t])
    decreases n
  {
    hide InHand;
    var mine, now, last := InHand(s, s.pushers[t]), InHand(s', s'.pushers[t]), InHand(s, s.pushers[n - 1]);
    if t == n - 1 {
      HeldSame(s, s', n - 1);
      Swapped(Held(s, n - 1), now, mine);
    } else {
      HeldBut(s, s', t, n - 1);
      Swapped(Held(s', n - 1), last, mine);
      Swapped(Held(s, n - 1), last, now);
    }
  }

  lemma OnlyOneMoves(s: State, s': State, t: nat)
    requires t < |s.pushers| == |s'.pushers| && s'.pushers == s.pushers[t := s'.pushers[t]]
    requires forall u :: 0 <= u < |s.pushers| && u != t && !s.pushers[u].Resting? ==> IdOf(s', s.pushers[u].node) == IdOf(s, s.pushers[u].node)
    ensures Held(s', |s.pushers|) + InHand(s, s.pushers[t]) == Held(s, |s.pushers|) + InHand(s', s'.pushers[t])
  {
    forall u | 0 <= u < |s.pushers| && u != t ensures InHand(s', s'.pushers[u]) == InHand(s, s.pushers[u]) {
      assert s'.pushers[u] == s.pushers[u];
    }
    HeldBut(s, s', t, |s.pushers|);
  }

  /** A push step moves one pusher, and takes up a new number or pushes the one in hand. */
  lemma PushMoves(s: State, act: Act, list: seq<Addr>)
    requires PushersOk(s, list) && IdsOk(s, list) && act.t < |s.pushers| && Push(s, act).Some?
    ensures var s', t := Push(s, act).value, act.t;
      && |s'.pushers| == |s.pushers| && s'.pushers == s.pushers[t := s'.pushers[t]]
      && (forall u :: 0 <= u < |s.pushers| && u != t && !s.pushers[u].Resting? ==> IdOf(s', s.pushers[u].node) == IdOf(s, s.pushers[u].node))
      && var mine, now := InHand(s, s.pushers[t]), InHand(s', s'.pushers[t]);
      if act.Make? then mine == multiset{} && now == multiset{s.made} && s'.made == s.made + 1 && s'.pushed == s.pushed
      else
        && s'.made == s.made
        && if act.SwapIn? && s.pushers[t].head == s.head then now == multiset{} && mine == multiset{IdOf(s, s.pushers[t].node)}
                                                               && s'.pushed == s.pushed + [IdOf(s, s.pushers[t].node)]
           else now == mine && s'.pushed == s.pushed
  {
    hide IsList;
  }

  lemma PushLosesNone(s: State, act: Act, list: seq<Addr>)
    requires Inv(s, list) && NoneLost(s) && act.t < |s.pushers| && Push(s, act).Some?
    ensures NoneLost(Push(s, act).value)
  {
    hide SafeWith, StealerOk, PushersOk, IdsOk, Held, InHand, NoneLost;
    var s', t, n := Push(s, act).value, act.t, |s.pushers|;
    PushMoves(s, act, list);
    hide Push;
    OnlyOneMoves(s, s', t);
    NoneLostIs(s);
    Balanced(Numbers(s.made), multiset(s.pushed), Held(s, n), Held(s', n), InHand(s, s.pushers[t]), InHand(s', s'.pushers[t]));
    NoneLostIs(s');
    if act.Make? {
      assert Numbers(s'.made) == Numbers(s.made) + multiset{s.made};
    } else if act.SwapIn? && s.pushers[t].head == s.head {
      assert multiset(s'.pushed) == multiset(s.pushed) + InHand(s, s.pushers[t]);
    }
  }

  lemma NoneLostIs(s: State)
    ensures NoneLost(s) <==> Numbers(s.made) == multiset(s.pushed) + Held(s, |s.pushers|)
  {
  }

  /** Either side of the balance may take up what one pusher does. */
  lemma Balanced(made: multiset<nat>, pushed: multiset<nat>, held: multiset<nat>, held': multiset<nat>, mine: multiset<nat>, now: multiset<nat>)
    requires made == pushed + held && held' + mine == held + now
    ensures mine == now ==> made == pushed + held'
    ensures mine == multiset{} ==> made + now == pushed + held'
    ensures now == multiset{} ==> made == (pushed + mine) + held'
  {
    forall x ensures made[x] == pushed[x] + held[x] && held'[x] + mine[x] == held[x] + now[x] {
      assert (held' + mine)[x] == (held + now)[x];
    }
  }

  lemma {:induction false} RunLosesNone(s: State, acts: seq<Act>, list: seq<Addr>) returns (list': seq<Addr>)
    requires Inv(s, list) && NoneLost(s) && Run(s, acts).Some?
    ensures Inv(Run(s, acts).value, list') && NoneLost(Run(s, acts).value)
    decreases |acts|
  {
    hide Inv, NoneLost;
    list' := list;
    if acts != [] {
      var act := acts[0];
      list' := StepIsStackStep(s, act, list);
      if act.Make? || act.LoadHead? || act.StoreNext? || act.SwapIn? {
        PushLosesNone(s, act, list);
      } else {
        StealLosesNone(s, act);
      }
      list' := RunLosesNone(Do(s, act).value, acts[1..], list');
    }
  }

  lemma StealMakesNone(s: State, act: Act)
    requires act.t < |s.stealers| && Steal(s, act).Some?
    ensures var s' := Steal(s, act).value; s'.pushers == s.pushers && s'.ids == s.ids && s'.made == s.made && s'.pushed == s.pushed
  {
  }

  lemma StealLosesNone(s: State, act: Act)
    requires NoneLost(s) && act.t < |s.stealers| && Steal(s, act).Some?
    ensures NoneLost(Steal(s, act).value)
  {
    hide Steal;
    StealMakesNone(s, act);
    HeldSame(s, Steal(s, act).value, |s.pushers|);
  }

  lemma {:induction false} NoneHeld(s: State, n: nat)
    requires n <= |s.pushers| && forall t :: 0 <= t < n ==> s.pushers[t].Resting?
    ensures Held(s, n) == multiset{}
  {
    if n > 0 {
      NoneHeld(s, n - 1);
    }
  }

  /** However the steps interleave, with one stealer every node made is on the list, or stolen, or
      in the hands of a pusher that still has to push it, and in only one of these places. */
  lemma NothingIsLost(pushers: nat, stealers: nat, acts: seq<Act>) returns (list: seq<Addr>)
    requires stealers <= 1 && Run(Init(pushers, stealers), acts).Some?
    ensures var s := Run(Init(pushers, stealers), acts).value;
      && SafeWith(s, list)
      && Numbers(s.made) == multiset(s.pushed) + Held(s, |s.pushers|)
      && Numbers(s.made) == multiset(Ids(s, list)) + multiset(s.stolen) + Held(s, |s.pushers|)
      && ((forall t :: 0 <= t < |s.pushers| ==> s.pushers[t].Resting?) ==> Numbers(s.made) == multiset(s.pushed))
  {
    hide Run, Ids;
    var start := Init(pushers, stealers);
    assert Inv(start, []) by { assert Ids(start, []) == []; }
    NoneHeld(start, pushers);
    list := RunLosesNone(start, acts, []);
    var s := Run(start, acts).value;
    if forall t :: 0 <= t < |s.pushers| ==> s.pushers[t].Resting? {
      NoneHeld(s, |s.pushers|);
    }
  }

  /** The next step of a pusher in its loop. */
  function Turn(x: Pusher, t: nat): Act
    requires !x.Resting?
  {
    match x
    case Owning(_) => LoadHead(t)
    case Loaded(_, _) => StoreNext(t)
    case Linked(_, _) => SwapIn(t)
  }

  /** How many such steps a pusher that is left alone still needs. */
  function StepsLeft(s: State, x: Pusher): nat {
    match x
    case Resting => 0
    case Owning(_) => 3
    case Loaded(_, h) => if h == s.head then 2 else 5
    case Linked(_, h) => if h == s.head then 1 else 4
  }

  lemma TurnKeeps(s: State, t: nat, list: seq<Addr>)
    requires Inv(s, list) && t < |s.pushers| && StepsLeft(s, s.pushers[t]) > 1
    ensures Push(s, Turn(s.pushers[t], t)).Some?
    ensures var s' := Push(s, Turn(s.pushers[t], t)).value;
      && Inv(s', list) && s'.pushers == s.pushers[t := s'.pushers[t]] && !s'.pushers[t].Resting? && s'.pushers[t].node == s.pushers[t].node
      && s'.head == s.head && s'.ids == s.ids && s'.pushed == s.pushed && s'.stolen == s.stolen && s'.stealers == s.stealers && s'.made == s.made
      && StepsLeft(s', s'.pushers[t]) == StepsLeft(s, s.pushers[t]) - 1
  {
    hide Inv, Effect;
    match s.pushers[t] {
      case Owning(_) => LoadKeeps(s, t, list);
      case Loaded(_, _) => StoreKeeps(s, t, list);
      case _ => RetryKeeps(s, t, list);
    }
  }

  /** A pusher that lost a race tries again: left alone it puts its node on the list after at most
      five steps of its loop, in front of what was there. */
  lemma {:induction false} LonePusherPushes(s: State, t: nat, list: seq<Addr>) returns (acts: seq<Act>)
    requires Inv(s, list) && t < |s.pushers| && !s.pushers[t].Resting?
    ensures (forall i :: 0 <= i < |acts| ==> acts[i] == LoadHead(t) || acts[i] == StoreNext(t) || acts[i] == SwapIn(t))
    ensures |acts| <= 5 && Run(s, acts).Some?
    ensures var s', a := Run(s, acts).value, s.pushers[t].node;
      && s'.pushed == s.pushed + [IdOf(s, a)] && s'.pushers == s.pushers[t := Resting]
      && s'.head == a && Next(s', a) == s.head && s'.stealers == s.stealers && s'.stolen == s.stolen && s'.made == s.made
    ensures |acts| == StepsLeft(s, s.pushers[t])
    decreases StepsLeft(s, s.pushers[t])
  {
    hide SafeWith, StealerOk, IdsOk;
    var act := Turn(s.pushers[t], t);
    var s1 := Do(s, act).value;
    if StepsLeft(s, s.pushers[t]) == 1 {
      acts := [act];
      assert Run(s1, []) == Some(s1);
    } else {
      hide Inv;
      TurnKeeps(s, t, list);
      acts := LonePusherPushes(s1, t, list);
      acts := [act] + acts;
      assert acts[1..][..] == acts[1..];
    }
  }

  /** A thread at rest may make a node at any address that is not in use and, left alone, pushes it. */
  lemma RestingPusherPushes(s: State, t: nat, a: Addr, list: seq<Addr>) returns (acts: seq<Act>)
    requires Inv(s, list) && t < |s.pushers| && s.pushers[t].Resting? && a != 0 && a !in s.live
    ensures |acts| == 4 && acts[0] == Make(t, a) && Run(s, acts).Some?
    ensures var s' := Run(s, acts).value;
      && s'.pushed == s.pushed + [s.made] && s'.made == s.made + 1 && s'.pushers == s.pushers
      && s'.head == a && Next(s', a) == s.head && s'.stealers == s.stealers && s'.stolen == s.stolen
  {
    MakeKeeps(s, t, a, list);
    var s1 := Do(s, Make(t, a)).value;
    acts := LonePusherPushes(s1, t, list);
    assert s1.pushers[t := Resting] == s.pushers;
    acts := [Make(t, a)] + acts;
    assert acts[1..][..] == acts[1..];
  }

  /** The next step of a stealer in its loop. */
  function StealTurn(x: Stealer, t: nat): Act {
    match x
    case Waiting => SeeHead(t)
    case SawHead(_) => SeeNext(t)
    case SawNext(_, _) => SwapOut(t)
  }

  function StealStepsLeft(s: State, x: Stealer): nat {
    match x
    case Waiting => 3
    case SawHead(h) => if h == s.head then 2 else 5
    case SawNext(h, _) => if h == s.head then 1 else 4
  }

  lemma StealTurnKeeps(s: State, t: nat, list: seq<Addr>)
    requires Inv(s, list) && t < |s.stealers| && s.head != 0 && StealStepsLeft(s, s.stealers[t]) > 1
    ensures Steal(s, StealTurn(s.stealers[t], t)).Some?
    ensures var s' := Steal(s, StealTurn(s.stealers[t], t)).value;
      && Inv(s', list) && s' == s.(stealers := s.stealers[t := s'.stealers[t]])
      && StealStepsLeft(s', s'.stealers[t]) == StealStepsLeft(s, s.stealers[t]) - 1
  {
    hide Inv, Effect;
    LooksKeep(s, StealTurn(s.stealers[t], t), list);
  }

  /** A stealer that is left alone takes the first node of the list, if there is one. */
  lemma {:induction false} LoneStealerTakes(s: State, t: nat, list: seq<Addr>) returns (acts: seq<Act>)
    requires Inv(s, list) && t < |s.stealers| && s.head != 0
    ensures (forall i :: 0 <= i < |acts| ==> acts[i] == SeeHead(t) || acts[i] == SeeNext(t) || acts[i] == SwapOut(t))
    ensures |acts| == StealStepsLeft(s, s.stealers[t]) <= 5 && Run(s, acts).Some?
    ensures var s' := Run(s, acts).value;
      && s'.stolen == s.stolen + [IdOf(s, s.head)] && s'.head == Next(s, s.head) && s'.stealers == s.stealers[t := Waiting]
      && s'.pushers == s.pushers && s'.pushed == s.pushed
    decreases StealStepsLeft(s, s.stealers[t])
  {
    hide SafeWith, PushersOk, IdsOk;
    var act := StealTurn(s.stealers[t], t);
    var s1 := Do(s, act).value;
    if StealStepsLeft(s, s.stealers[t]) == 1 {
      acts := [act];
      assert Run(s1, []) == Some(s1);
    } else {
      hide Inv;
      StealTurnKeeps(s, t, list);
      acts := LoneStealerTakes(s1, t, list);
      acts := [act] + acts;
      assert acts[1..][..] == acts[1..];
    }
  }

  // ----- two stealers

  lemma {:induction false} RunOn(s: State, a: seq<Act>, b: seq<Act>)
    requires Run(s, a).Some?
    ensures Run(s, a + b) == Run(Run(s, a).value, b)
    decreases |a|
  {
    if a == [] {
      assert a + b == b;
    } else {
      assert (a + b)[1..] == a[1..] + b;
      RunOn(Do(s, a[0]).value, a[1..], b);
    }
  }

  function PushActs(a: Addr): seq<Act> {
    [Make(0, a), LoadHead(0), StoreNext(0), SwapIn(0)]
  }

  function StealActs(t: nat): seq<Act> {
    [SeeHead(t), SeeNext(t), SwapOut(t)]
  }

  lemma PushOne(s: State, a: Addr)
    requires |s.pushers| > 0 && s.pushers[0] == Resting && a != 0 && a !in s.live
    ensures Run(s, PushActs(a)) == Some(s.(head := a, next := s.next[a := s.head], live := s.live + {a},
                                           ids := s.ids[a := s.made], made := s.made + 1, pushed := s.pushed + [s.made]))
  {
    var s1 := Do(s, Make(0, a)).value;
    var s2 := Do(s1, LoadHead(0)).value;
    var s3 := Do(s2, StoreNext(0)).value;
    var s4 := Do(s3, SwapIn(0)).value;
    assert s4.pushers == s.pushers && s4.next == s.next[a := s.head];
    assert Run(s4, []) == Some(s4);
    assert Run(s3, [SwapIn(0)]) == Some(s4);
    assert Run(s2, [StoreNext(0), SwapIn(0)]) == Some(s4);
    assert Run(s1, [LoadHead(0), StoreNext(0), SwapIn(0)]) == Some(s4);
  }

  lemma StealOne(s: State, t: nat)
    requires t < |s.stealers| && s.stealers[t] == Waiting && s.head != 0
    ensures Run(s, StealActs(t)) == Some(s.(head := Next(s, s.head), live := s.live - {s.head}, stolen := s.stolen + [IdOf(s, s.head)]))
  {
    var s1 := Do(s, SeeHead(t)).value;
    var s2 := Do(s1, SeeNext(t)).value;
    var s3 := Do(s2, SwapOut(t)).value;
    assert s3.stealers == s.stealers;
    assert Run(s3, []) == Some(s3);
    assert Run(s2, [SwapOut(t)]) == Some(s3);
    assert Run(s1, [SeeNext(t), SwapOut(t)]) == Some(s3);
  }

  lemma LookOnly(s: State, t: nat)
    requires t < |s.stealers| && s.stealers[t] == Waiting && s.head != 0
    ensures Run(s, [SeeHead(t), SeeNext(t)]) == Some(s.(stealers := s.stealers[t := SawNext(s.head, Next(s, s.head))]))
  {
    var s1 := Do(s, SeeHead(t)).value;
    var s2 := Do(s1, SeeNext(t)).value;
    assert s2.stealers == s.stealers[t := SawNext(s.head, Next(s, s.head))];
    assert Run(s2, []) == Some(s2);
    assert Run(s1, [SeeNext(t)]) == Some(s2);
  }

  /** Two stealers: the first looks at the list 1, 2 and pauses; the second steals both nodes,
      and the address of the first is used for a new node; the first then makes its stale
      swap, which puts a freed node back. It is stolen again. */
  lemma StaleSwap(pushers: nat, stealers: nat) returns (acts: seq<Act>)
    requires pushers > 0 && stealers > 1
    ensures Run(Init(pushers, stealers), acts).Some? && !Safe(Run(Init(pushers, stealers), acts).value)
  {
    hide Run, Do;
    var s0 := Init(pushers, stealers);
    PushOne(s0, 2);
    var s1 := Run(s0, PushActs(2)).value;
    PushOne(s1, 1);
    var s2 := Run(s1, PushActs(1)).value;
    LookOnly(s2, 0);
    var s3 := Run(s2, [SeeHead(0), SeeNext(0)]).value;
    StealOne(s3, 1);
    var s4 := Run(s3, StealActs(1)).value;
    StealOne(s4, 1);
    var s5 := Run(s4, StealActs(1)).value;
    PushOne(s5, 1);
    var s6 := Run(s5, PushActs(1)).value;
    assert s6.head == 1 && s6.stealers[0] == SawNext(1, 2) && s6.stolen == [1, 0];
    Swap(s6, 0);
    var s7 := Run(s6, [SwapOut(0)]).value;
    assert s7.head == 2 && Waiting == s7.stealers[1];
    StealOne(s7, 1);
    var s8 := Run(s7, StealActs(1)).value;
    assert s8.stolen == [1, 0, 2, 0];
    assert s8.stolen[1] == s8.stolen[3];
    acts := StealActs(1);
    RunOn(s6, [SwapOut(0)], acts);
    acts := [SwapOut(0)] + acts;
    RunOn(s5, PushActs(1), acts);
    acts := PushActs(1) + acts;
    RunOn(s4, StealActs(1), acts);
    acts := StealActs(1) + acts;
    RunOn(s3, StealActs(1), acts);
    acts := StealActs(1) + acts;
    RunOn(s2, [SeeHead(0), SeeNext(0)], acts);
    acts := [SeeHead(0), SeeNext(0)] + acts;
    RunOn(s1, PushActs(1), acts);
    acts := PushActs(1) + acts;
    RunOn(s0, PushActs(2), acts);
    acts := PushActs(2) + acts;
  }

  lemma Swap(s: State, t: nat)
    requires t < |s.stealers| && s.stealers[t].SawNext? && s.head == s.stealers[t].head
    ensures Run(s, [SwapOut(t)]) == Some(s.(head := s.stealers[t].next, live := s.live - {s.head},
                                            stolen := s.stolen + [IdOf(s, s.head)], stealers := s.stealers[t := Waiting]))
  {
    assert Run(Do(s, SwapOut(t)).value, []) == Do(s, SwapOut(t));
  }

  /** The lists are safe in every interleaving exactly when no more than one thread steals. */
  lemma SafeIffOneStealer(pushers: nat, stealers: nat)
    requires pushers > 0
    ensures (forall acts :: Run(Init(pushers, stealers), acts).Some? ==> Safe(Run(Init(pushers, stealers), acts).value)) <==> stealers <= 1
  {
    hide Run, Safe;
    if stealers <= 1 {
      forall acts | Run(Init(pushers, stealers), acts).Some? ensures Safe(Run(Init(pushers, stealers), acts).value) {
        OneStealerIsSafe(pushers, stealers, acts);
      }
    } else {
      var acts := StaleSwap(pushers, stealers);
    }
  }
}
