/** The configuration store: publication to subscribers over one-slot channels,
    as a machine of atomic steps. Publishing, subscribing and cancelling hold the
    lock; receiving does not, so it falls between any two channel operations. */
module ConfigStore {
  import opened Text

  type Id = nat

  /** A channel of capacity one carries the position of a publication; what its
      consumer has received so far is recorded. */
  datatype Channel = Channel(slot: Option<nat>, closed: bool, received: seq<nat>)

  /** The three selects of `pushLatest`. */
  datatype Select = TrySend | TakeOld | SendAgain

  datatype Phase =
    | Unlocked
    | Publishing(waiting: set<Id>, pushing: Option<(Id, Select)>)

  /** `history` lists every version published; `panicked` records a send on, or a
      close of, a closed channel and `dropped` a publication given up by the last select. */
  datatype State = State(
    history: seq<string>,
    channels: map<Id, Channel>,
    subscribers: set<Id>,
    nextSubscriberId: nat,
    phase: Phase,
    panicked: bool,
    dropped: bool)

  const EMPTY := State([], map[], {}, 0, Unlocked, false, false)

  datatype Step =
    | BeginPublish(version: string)
    | Choose(id: Id)
    | Push
    | EndPublish
    | Subscribe
    | Cancel(id: Id)
    | Receive(id: Id)

  function Current(s: State): int {
    |s.history| - 1
  }

  predicate Enabled(s: State, step: Step) {
    match step
    case BeginPublish(_) => s.phase.Unlocked?
    case Choose(id) => s.phase.Publishing? && s.phase.pushing.None? && id in s.phase.waiting
    case Push => s.phase.Publishing? && s.phase.pushing.Some? && s.phase.pushing.value.0 in s.channels
    case EndPublish => s.phase == Publishing({}, None)
    case Subscribe => s.phase.Unlocked?
    case Cancel(id) => s.phase.Unlocked? && id in s.channels
    case Receive(id) => id in s.channels
  }

  /** A non-blocking send: nothing happens when the slot is taken. */
  function Sent(c: Channel, position: nat): Channel {
    if c.slot.None? then c.(slot := Some(position)) else c
  }

  /** A receive takes what the slot holds, if anything. */
  function Taken(c: Channel): Channel {
    if c.slot.Some? then c.(slot := None, received := c.received + [c.slot.value]) else c
  }

  function Pushed(s: State, id: Id, select: Select): State
    requires s.phase.Publishing? && id in s.channels && s.history != []
  {
    var c := s.channels[id];
    match select
    case TrySend =>
      s.(channels := s.channels[id := Sent(c, Current(s))],
         phase := s.phase.(pushing := if c.slot.None? then None else Some((id, TakeOld))),
         panicked := s.panicked || c.closed)
    case TakeOld =>
      s.(channels := s.channels[id := c.(slot := None)],
         phase := s.phase.(pushing := Some((id, SendAgain))))
    case SendAgain =>
      s.(channels := s.channels[id := Sent(c, Current(s))],
         phase := s.phase.(pushing := None),
         panicked := s.panicked || c.closed,
         dropped := s.dropped || c.slot.Some?)
  }

  function Next(s: State, step: Step): State
    requires Enabled(s, step)
  {
    match step
    case BeginPublish(version) =>
      s.(history := s.history + [version], phase := Publishing(s.subscribers, None))
    case Choose(id) => s.(phase := Publishing(s.phase.waiting - {id}, Some((id, TrySend))))
    case Push => if s.history == [] then s else Pushed(s, s.phase.pushing.value.0, s.phase.pushing.value.1)
    case EndPublish => s.(phase := Unlocked)
    case Subscribe =>
      var slot := if s.history == [] then None else Some(Current(s));
      s.(channels := s.channels[s.nextSubscriberId := Channel(slot, false, [])],
         subscribers := s.subscribers + {s.nextSubscriberId},
         nextSubscriberId := s.nextSubscriberId + 1)
    case Cancel(id) =>
      if id in s.subscribers then
        s.(channels := s.channels[id := s.channels[id].(closed := true)],
           subscribers := s.subscribers - {id},
           panicked := s.panicked || s.channels[id].closed)
      else s
    case Receive(id) =>
      s.(channels := s.channels[id := Taken(s.channels[id])])
  }

  /** A run: every step is taken where it may be. */
  ghost predicate Reaches(s: State, steps: seq<Step>, t: State)
    decreases |steps|
  {
    if steps == [] then s == t
    else Enabled(s, steps[0]) && Reaches(Next(s, steps[0]), steps[1..], t)
  }

  lemma {:induction false} ReachesAppend(s: State, first: seq<Step>, t: State, later: seq<Step>, u: State)
    requires Reaches(s, first, t) && Reaches(t, later, u)
    ensures Reaches(s, first + later, u)
    decreases |first|
  {
    if first == [] {
      assert first + later == later;
    } else {
      ReachesAppend(Next(s, first[0]), first[1..], t, later, u);
      assert (first + later)[1..] == first[1..] + later;
    }
  }

  // ----- invariants -----

  ghost predicate StrictlyIncreasing(a: seq<nat>) {
    forall i, j :: 0 <= i < j < |a| ==> a[i] < a[j]
  }

  /** Everything received or waiting is below a position, in increasing order. */
  ghost predicate Below(c: Channel, bound: int) {
    && StrictlyIncreasing(c.received)
    && (forall i :: 0 <= i < |c.received| ==> c.received[i] < bound)
    && (c.slot.Some? ==> c.slot.value < bound && forall i :: 0 <= i < |c.received| ==> c.received[i] < c.slot.value)
  }

  /** The current version is waiting, or it was the last one received; before any
      publication there is nothing of either. */
  predicate UpToDate(c: Channel, current: int) {
    if current < 0 then c.slot.None? && c.received == []
    else if c.slot.Some? then c.slot.value == current
    else c.received != [] && c.received[|c.received| - 1] == current
  }

  /** What a live subscriber's channel shows, by how far the publisher has got with it. */
  ghost predicate Standing(s: State, id: Id)
    requires id in s.channels
  {
    var c := s.channels[id];
    if s.phase.Publishing? && id in s.phase.waiting then Below(c, Current(s))
    else if s.phase.Publishing? && s.phase.pushing.Some? && s.phase.pushing.value.0 == id then
      Below(c, Current(s)) && (s.phase.pushing.value.1 == SendAgain ==> c.slot.None?)
    else UpToDate(c, Current(s))
  }

  ghost predicate Inv(s: State) {
    && !s.panicked && !s.dropped
    && s.subscribers <= s.channels.Keys
    && (forall id :: id in s.channels ==> id < s.nextSubscriberId)
    && (forall id :: id in s.channels ==> Below(s.channels[id], |s.history|))
    && (forall id :: id in s.channels ==> (s.channels[id].closed <==> id !in s.subscribers))
    && (forall id :: id in s.subscribers ==> Standing(s, id))
    && (s.phase.Publishing? ==> s.history != [] && s.phase.waiting <= s.subscribers)
    && (s.phase.Publishing? && s.phase.pushing.Some? ==>
          s.phase.pushing.value.0 in s.subscribers && s.phase.pushing.value.0 !in s.phase.waiting)
  }

  // ----- one channel -----

  lemma TakenKeeps(c: Channel, bound: int, current: int)
    ensures Below(c, bound) ==> Below(Taken(c), bound)
    ensures UpToDate(c, current) ==> UpToDate(Taken(c), current)
  {
  }

  lemma SentIsUpToDate(c: Channel, position: nat)
    requires Below(c, position) && c.slot.None?
    ensures Below(Sent(c, position), position + 1) && UpToDate(Sent(c, position), position)
  {
  }

  lemma ClearedKeeps(c: Channel, bound: int)
    requires Below(c, bound)
    ensures Below(c.(slot := None), bound)
  {
  }

  lemma BelowMore(c: Channel, bound: int)
    requires Below(c, bound)
    ensures Below(c, bound + 1)
  {
  }

  lemma BeginPublishKeeps(s: State, version: string)
    requires Inv(s) && s.phase.Unlocked?
    ensures Inv(Next(s, BeginPublish(version)))
  {
  }

  lemma ChooseKeeps(s: State, id: Id)
    requires Inv(s) && Enabled(s, Choose(id))
    ensures Inv(Next(s, Choose(id)))
  {
  }

  /** A publisher with a channel in hand: the first select may find it taken,
      the second empties it, and the third finds it empty. */
  lemma PushedStands(s: State, id: Id, select: Select)
    requires s.phase.Publishing? && s.phase.pushing == Some((id, select)) && id in s.channels && s.history != []
    requires id !in s.phase.waiting && Standing(s, id)
    ensures Standing(Pushed(s, id, select), id)
    ensures Below(Pushed(s, id, select).channels[id], |s.history|)
    ensures Pushed(s, id, select).dropped ==> s.dropped
  {
    hide Below, UpToDate;
    var c := s.channels[id];
    BelowMore(c, Current(s));
    ClearedKeeps(c, Current(s));
    BelowMore(c.(slot := None), Current(s));
    if c.slot.None? {
      SentIsUpToDate(c, Current(s));
    }
  }

  lemma PushedLeavesOthers(s: State, id: Id, select: Select, other: Id)
    requires s.phase.Publishing? && s.phase.pushing == Some((id, select)) && id in s.channels && s.history != []
    requires other in s.channels && other != id && Standing(s, other)
    ensures Standing(Pushed(s, id, select), other)
    ensures Pushed(s, id, select).channels[other] == s.channels[other]
  {
    hide Below, UpToDate;
  }

  lemma PushKeeps(s: State)
    requires Inv(s) && Enabled(s, Push)
    ensures Inv(Next(s, Push))
  {
    hide Below, UpToDate, Standing;
    var (id, select) := s.phase.pushing.value;
    PushedStands(s, id, select);
    forall other | other in s.subscribers && other != id
      ensures Standing(Pushed(s, id, select), other)
    {
      PushedLeavesOthers(s, id, select, other);
    }
  }

  lemma EndPublishKeeps(s: State)
    requires Inv(s) && Enabled(s, EndPublish)
    ensures Inv(Next(s, EndPublish))
  {
  }

  lemma SubscribeKeeps(s: State)
    requires Inv(s) && s.phase.Unlocked?
    ensures Inv(Next(s, Subscribe))
  {
  }

  lemma CancelKeeps(s: State, id: Id)
    requires Inv(s) && Enabled(s, Cancel(id))
    ensures Inv(Next(s, Cancel(id)))
  {
  }

  lemma ReceivedStands(s: State, id: Id, other: Id)
    requires id in s.channels && other in s.channels && Standing(s, other)
    ensures Standing(s.(channels := s.channels[id := Taken(s.channels[id])]), other)
  {
    hide Below, UpToDate;
    TakenKeeps(s.channels[id], Current(s), Current(s));
  }

  lemma ReceiveKeeps(s: State, id: Id)
    requires Inv(s) && Enabled(s, Receive(id))
    ensures Inv(Next(s, Receive(id)))
  {
    hide Below, UpToDate, Standing;
    var c := s.channels[id];
    TakenKeeps(c, |s.history|, Current(s));
    var t := s.(channels := s.channels[id := Taken(c)]);
    assert Next(s, Receive(id)) == t;
    forall other | other in s.subscribers ensures Standing(t, other) {
      ReceivedStands(s, id, other);
    }
  }

  lemma StepKeeps(s: State, step: Step)
    requires Inv(s) && Enabled(s, step)
    ensures Inv(Next(s, step))
  {
    hide Inv, Next;
    match step
    case BeginPublish(version) => BeginPublishKeeps(s, version);
    case Choose(id) => ChooseKeeps(s, id);
    case Push => PushKeeps(s);
    case EndPublish => EndPublishKeeps(s);
    case Subscribe => SubscribeKeeps(s);
    case Cancel(id) => CancelKeeps(s, id);
    case Receive(id) => ReceiveKeeps(s, id);
  }

  lemma {:induction false} RunKeeps(s: State, steps: seq<Step>, t: State)
    requires Inv(s) && Reaches(s, steps, t)
    ensures Inv(t)
    decreases |steps|
  {
    hide Inv, Next;
    if steps != [] {
      StepKeeps(s, steps[0]);
      RunKeeps(Next(s, steps[0]), steps[1..], t);
    }
  }

  lemma EmptyInv()
    ensures Inv(EMPTY)
  {
  }

  /** In every run, however publishes, subscriptions, cancellations and receives
      interleave: whenever the lock is free, each live subscriber has the current
      version waiting or received it last; what any consumer received, and what
      waits for it, is in publication order without repetition; the last select
      never gives a version up; and no closed channel is sent on or closed again. */
  lemma LatestReachesEverySubscriber(steps: seq<Step>, s: State)
    requires Reaches(EMPTY, steps, s)
    ensures s.phase.Unlocked? ==>
      forall id :: id in s.subscribers ==> id in s.channels && UpToDate(s.channels[id], Current(s))
    ensures forall id :: id in s.channels ==> Below(s.channels[id], |s.history|)
    ensures !s.panicked && !s.dropped
    ensures forall id :: id in s.channels ==> (s.channels[id].closed <==> id !in s.subscribers)
    ensures s.phase.Publishing? && s.phase.pushing.Some? ==>
      var (id, select) := s.phase.pushing.value;
      id in s.channels && !s.channels[id].closed && (select == SendAgain ==> s.channels[id].slot.None?)
  {
    EmptyInv();
    RunKeeps(EMPTY, steps, s);
    forall id | id in s.subscribers && s.phase.Unlocked? ensures UpToDate(s.channels[id], Current(s)) {
      assert Standing(s, id);
    }
  }

  /** A live subscriber is at most one receive away from having the current version. */
  lemma OneReceiveSuffices(steps: seq<Step>, s: State, id: Id)
    requires Reaches(EMPTY, steps, s) && s.phase.Unlocked? && id in s.subscribers && s.history != []
    ensures id in s.channels && Enabled(s, Receive(id))
    ensures var received := Next(s, Receive(id)).channels[id].received;
      received != [] && received[|received| - 1] == Current(s)
  {
    LatestReachesEverySubscriber(steps, s);
  }

  /** The publisher's remaining work. */
  function Work(phase: Phase): nat {
    match phase
    case Unlocked => 0
    case Publishing(waiting, pushing) =>
      1 + 4 * |waiting| +
      match pushing
      case None => 0
      case Some((_, TrySend)) => 3
      case Some((_, TakeOld)) => 2
      case Some((_, SendAgain)) => 1
  }

  predicate IsPublisherStep(step: Step) {
    step.Choose? || step.Push? || step.EndPublish?
  }

  /** Consumers never hold a publisher up: it always has a step of its own, each
      one shortens what is left, and nothing a consumer does lengthens it. */
  lemma PublisherNeverWaits(steps: seq<Step>, s: State) returns (step: Step)
    requires Reaches(EMPTY, steps, s) && s.phase.Publishing?
    ensures IsPublisherStep(step) && Enabled(s, step)
    ensures forall other :: IsPublisherStep(other) && Enabled(s, other) ==> Work(Next(s, other).phase) < Work(s.phase)
    ensures forall other :: !IsPublisherStep(other) && Enabled(s, other) ==> other.Receive? && Next(s, other).phase == s.phase
  {
    EmptyInv();
    RunKeeps(EMPTY, steps, s);
    forall other | IsPublisherStep(other) && Enabled(s, other)
      ensures Work(Next(s, other).phase) < Work(s.phase)
    {
      WorkShrinks(s, other);
    }
    if s.phase.pushing.Some? {
      step := Push;
    } else if s.phase.waiting == {} {
      step := EndPublish;
    } else {
      var id :| id in s.phase.waiting;
      step := Choose(id);
    }
  }

  lemma WorkShrinks(s: State, step: Step)
    requires IsPublisherStep(step) && Enabled(s, step) && (s.phase.Publishing? ==> s.history != [])
    ensures Work(Next(s, step).phase) < Work(s.phase)
  {
    if step.Choose? {
      assert |s.phase.waiting| == |s.phase.waiting - {step.id}| + 1;
    }
  }

  // ----- the store object -----

  datatype Envelope = Envelope(algorithm: string, keyId: string, version: string, signature: string)

  datatype PublishError = NoAlgorithm | NoKeyId | NoVersion | NoSignature

  lemma ReachesStep(steps: seq<Step>, s: State, step: Step)
    requires Reaches(EMPTY, steps, s) && Enabled(s, step)
    ensures Reaches(EMPTY, steps + [step], Next(s, step))
  {
    hide Next, Enabled;
    assert [step][1..] == [];
    assert Reaches(Next(s, step), [], Next(s, step));
    ReachesAppend(EMPTY, steps, s, [step], Next(s, step));
  }

  ghost predicate OnlyReceives(steps: seq<Step>, start: nat) {
    forall k :: start <= k < |steps| ==> steps[k].Receive?
  }

  /** The steps from a point on are the publisher's own and consumers' receives. */
  ghost predicate Pushing(steps: seq<Step>, start: nat) {
    forall k :: start <= k < |steps| ==> steps[k].Receive? || IsPublisherStep(steps[k])
  }

  lemma PushingNothing(steps: seq<Step>)
    ensures Pushing(steps, |steps|)
  {
  }

  lemma PushingOne(steps: seq<Step>, step: Step)
    requires IsPublisherStep(step)
    ensures steps <= steps + [step] && Pushing(steps + [step], |steps|)
  {
  }

  lemma PushingOn(steps: seq<Step>, more: seq<Step>, start: nat)
    requires start <= |steps| && Pushing(steps, start) && steps <= more && Pushing(more, |steps|)
    ensures Pushing(more, start)
  {
    forall k | start <= k < |more| ensures more[k].Receive? || IsPublisherStep(more[k]) {
      assert k < |steps| ==> more[k] == steps[k];
    }
  }

  /** The steps from a point on are one whole publication, with receives in between. */
  ghost predicate OnePublication(steps: seq<Step>, start: nat, version: string) {
    start < |steps| && steps[start] == BeginPublish(version) && Pushing(steps, start + 1)
  }

  /** `newSnapshot` looks at the fields in this order. */
  function FirstFault(e: Envelope): Option<PublishError> {
    if e.algorithm == "" then Some(NoAlgorithm)
    else if e.keyId == "" then Some(NoKeyId)
    else if e.version == "" then Some(NoVersion)
    else if e.signature == "" then Some(NoSignature)
    else None
  }

  lemma PublicationBegins(steps: seq<Step>, version: string)
    ensures OnePublication(steps + [BeginPublish(version)], |steps|, version)
  {
  }

  lemma PublicationGoesOn(steps: seq<Step>, more: seq<Step>, start: nat, version: string)
    requires OnePublication(steps, start, version) && steps <= more && Pushing(more, |steps|)
    ensures OnePublication(more, start, version)
  {
    hide Pushing;
    PushingOn(steps, more, start + 1);
  }

  /** What a send of the publisher's amounts to in a reachable state: the channel
      is open, and the last select finds it empty. */
  lemma SendOutcome(s: State)
    requires Inv(s) && Enabled(s, Push) && s.phase.pushing.value.1 != TakeOld
    ensures var (id, select) := s.phase.pushing.value;
      var free := s.channels[id].slot.None?;
      && (select == SendAgain ==> free)
      && Next(s, Push) == s.(
        channels := if free then s.channels[id := s.channels[id].(slot := Some(|s.history| - 1))] else s.channels,
        phase := s.phase.(pushing := if free then None else Some((id, TakeOld))))
  {
    hide Below, UpToDate;
    var (id, select) := s.phase.pushing.value;
    assert Standing(s, id);
    assert s.channels[id := s.channels[id]] == s.channels;
  }

  class Store {
    ghost var phase: Phase
    ghost var run: seq<Step>
    var history: seq<string>
    var current: Option<string>
    var channels: map<Id, Channel>
    var subscribers: set<Id>
    var nextSubscriberId: nat

    ghost function View(): State
      reads this
    {
      State(history, channels, subscribers, nextSubscriberId, phase, false, false)
    }

    /** The object's state is the one its recorded run reaches. */
    ghost predicate Valid()
      reads this
    {
      && Reaches(EMPTY, run, View())
      && current == (if history == [] then None else Some(history[|history| - 1]))
      && forall i :: 0 <= i < |history| ==> history[i] != ""
    }

    constructor ()
      ensures Valid() && View() == EMPTY
    {
      history, phase, run := [], Unlocked, [];
      current, channels, subscribers, nextSubscriberId := None, map[], {}, 0;
    }

    lemma Reached()
      requires Valid()
      ensures Inv(View())
    {
      EmptyInv();
      RunKeeps(EMPTY, run, View());
    }

    /** A consumer's receive; it takes no lock. */
    method Receive(id: Id) returns (received: Option<nat>)
      requires Valid() && id in channels
      modifies `channels, `run
      ensures Valid() && run == old(run) + [Step.Receive(id)]
      ensures View() == Next(old(View()), Step.Receive(id)) && received == old(channels[id].slot)
    {
      ReachesStep(run, View(), Step.Receive(id));
      received := channels[id].slot;
      channels := channels[id := Taken(channels[id])];
      run := run + [Step.Receive(id)];
    }

    /** Any consumers may receive, any number of times, between two operations. */
    method Interlude()
      requires Valid()
      modifies `channels, `run
      ensures Valid() && old(run) <= run && OnlyReceives(run, |old(run)|) && Pushing(run, |old(run)|)
      ensures channels.Keys == old(channels.Keys)
    {
      var n: nat :| true;
      for i := 0 to n
        invariant Valid() && old(run) <= run && OnlyReceives(run, |old(run)|)
        invariant channels.Keys == old(channels.Keys)
      {
        var id: nat :| true;
        if id in channels {
          var received := Receive(id);
        }
      }
    }

    /** One more step of the recorded run. */
    ghost method Record(step: Step)
      requires Reaches(EMPTY, run + [step], View())
      requires current == if history == [] then None else Some(history[|history| - 1])
      requires forall i :: 0 <= i < |history| ==> history[i] != ""
      modifies `run
      ensures Valid() && run == old(run) + [step]
    {
      run := run + [step];
    }

    method Begin(version: string)
      requires Valid() && phase.Unlocked? && version != ""
      modifies `history, `current, `phase, `run
      ensures Valid() && run == old(run) + [BeginPublish(version)]
      ensures View() == Next(old(View()), BeginPublish(version))
    {
      ReachesStep(run, View(), BeginPublish(version));
      current := Some(version);
      history := history + [version];
      phase := Publishing(subscribers, None);
      Record(BeginPublish(version));
    }

    method End()
      requires Valid() && phase == Publishing({}, None)
      modifies `phase, `run
      ensures Valid() && run == old(run) + [EndPublish] && phase.Unlocked?
    {
      ReachesStep(run, View(), EndPublish);
      phase := Unlocked;
      Record(EndPublish);
    }

    /** A send that does not block: whether the slot took the value. */
    method SendNow(id: Id, version: string) returns (sent: bool)
      requires Valid() && Enabled(View(), Push)
      requires phase.pushing.value.0 == id && phase.pushing.value.1 != TakeOld
      requires current == Some(version)
      modifies `channels, `phase, `run
      ensures Valid() && run == old(run) + [Push] && sent == old(channels[id].slot).None?
      ensures View() == Next(old(View()), Push)
      ensures phase == old(phase).(pushing := if sent then None else Some((id, TakeOld)))
      ensures old(phase).pushing.value.1 == SendAgain ==> sent
      ensures channels.Keys == old(channels.Keys)
    {
      hide Next, Reaches, Inv;
      Reached();
      ReachesStep(run, View(), Push);
      SendOutcome(View());
      sent := channels[id].slot.None?;
      if sent {
        channels := channels[id := channels[id].(slot := Some(|history| - 1))];
      }
      phase := phase.(pushing := if sent then None else Some((id, TakeOld)));
      Record(Push);
    }

    /** The publisher turns to a subscriber. */
    method ChooseNow(id: Id)
      requires Valid() && Enabled(View(), Choose(id))
      modifies `phase, `run
      ensures Valid() && run == old(run) + [Choose(id)]
      ensures phase == Publishing(old(phase.waiting) - {id}, Some((id, TrySend))) && id in channels
    {
      Reached();
      ReachesStep(run, View(), Choose(id));
      phase := Publishing(phase.waiting - {id}, Some((id, TrySend)));
      Record(Choose(id));
    }

    /** An interlude after part of a publication's steps. */
    method Amid(ghost start: seq<Step>)
      requires Valid() && start <= run && Pushing(run, |start|)
      modifies `channels, `run
      ensures Valid() && start <= run && Pushing(run, |start|)
      ensures channels.Keys == old(channels.Keys)
    {
      hide Next, Reaches, Pushing;
      Interlude();
      PushingOn(old(run), run, |start|);
    }

    /** A send after such an interlude. */
    method SendAmid(id: Id, ghost start: seq<Step>) returns (sent: bool)
      requires Valid() && Enabled(View(), Push) && start <= run && Pushing(run, |start|)
      requires phase.pushing.value.0 == id && phase.pushing.value.1 != TakeOld && current.Some?
      modifies `channels, `phase, `run
      ensures Valid() && start <= run && Pushing(run, |start|)
      ensures phase == old(phase).(pushing := if sent then None else Some((id, TakeOld)))
      ensures old(phase).pushing.value.1 == SendAgain ==> sent
      ensures channels.Keys == old(channels.Keys)
    {
      hide Next, Reaches, Pushing;
      Amid(start);
      ghost var before := run;
      sent := SendNow(id, current.value);
      PushingOne(before, Push);
      PushingOn(before, run, |start|);
    }

    /** `pushLatest`: three selects, with consumers free to receive around each. */
    method PushLatest(id: Id)
      requires Valid() && phase.Publishing? && phase.pushing.None? && id in phase.waiting && current.Some?
      modifies `channels, `phase, `run
      ensures Valid() && phase == Publishing(old(phase.waiting) - {id}, None)
      ensures old(run) <= run && Pushing(run, |old(run)|)
    {
      hide Next, Reaches, Inv, Pushing;
      PushingNothing(run);
      ChooseNow(id);
      PushingOne(old(run), Choose(id));
      var sent := SendAmid(id, old(run));
      if sent {
        return;
      }
      Amid(old(run));
      ghost var before := run;
      TakeOldNow(id);
      PushingOne(before, Push);
      PushingOn(before, run, |old(run)|);
      sent := SendAmid(id, old(run));
    }

    /** A receive by the publisher itself, that does not block. */
    method TakeOldNow(id: Id)
      requires Valid() && Enabled(View(), Push) && phase.pushing.value == (id, TakeOld)
      modifies `channels, `phase, `run
      ensures Valid() && run == old(run) + [Push]
      ensures View() == Next(old(View()), Push)
      ensures phase == old(phase).(pushing := Some((id, SendAgain))) && channels.Keys == old(channels.Keys)
    {
      Reached();
      ReachesStep(run, View(), Push);
      channels := channels[id := channels[id].(slot := None)];
      phase := phase.(pushing := Some((id, SendAgain)));
      Record(Push);
    }

    /** `Publish`: the lock is held from the new current version to the last push. */
    method Publish(envelope: Envelope) returns (error: Option<PublishError>)
      requires Valid() && phase.Unlocked?
      modifies this
      ensures Valid() && phase.Unlocked?
      ensures error.None? <==>
        envelope.algorithm != "" && envelope.keyId != "" && envelope.version != "" && envelope.signature != ""
      ensures error == Some(NoAlgorithm) <==> envelope.algorithm == ""
      ensures error == Some(NoKeyId) <==> envelope.algorithm != "" && envelope.keyId == ""
      ensures error == Some(NoVersion) <==> envelope.algorithm != "" && envelope.keyId != "" && envelope.version == ""
      ensures error == Some(NoSignature) <==>
        envelope.algorithm != "" && envelope.keyId != "" && envelope.version != "" && envelope.signature == ""
      ensures error.Some? ==> View() == old(View()) && run == old(run)
      ensures error.None? ==>
        && history == old(history) + [envelope.version] && subscribers == old(subscribers)
        && old(run) <= run && OnePublication(run, |old(run)|, envelope.version)
        && forall id :: id in subscribers ==> id in channels && UpToDate(channels[id], |history| - 1)
    {
      error := FirstFault(envelope);
      if error.Some? {
        return;
      }
      hide Inv, Reaches, Next, UpToDate, Pushing, OnePublication, OnlyReceives;
      Begin(envelope.version);
      PublicationBegins(old(run), envelope.version);
      var waiting := subscribers;
      while waiting != {}
        invariant Valid() && phase == Publishing(waiting, None)
        invariant history == old(history) + [envelope.version] && subscribers == old(subscribers)
        invariant old(run) <= run && OnePublication(run, |old(run)|, envelope.version)
        decreases |waiting|
      {
        ghost var before := run;
        Interlude();
        PublicationGoesOn(before, run, |old(run)|, envelope.version);
        before := run;
        var id :| id in waiting;
        waiting := waiting - {id};
        PushLatest(id);
        PublicationGoesOn(before, run, |old(run)|, envelope.version);
      }
      ghost var before := run;
      End();
      PushingOne(before, EndPublish);
      PublicationGoesOn(before, run, |old(run)|, envelope.version);
      LatestReachesEverySubscriber(run, View());
    }

    /** `Subscribe`: one critical section, and a fresh channel no consumer has yet. */
    method Subscribe() returns (id: Id)
      requires Valid() && phase.Unlocked?
      modifies this
      ensures Valid() && run == old(run) + [Step.Subscribe] && View() == Next(old(View()), Step.Subscribe)
      ensures id !in old(channels) && id in channels && id in subscribers && UpToDate(channels[id], |history| - 1)
    {
      Reached();
      ReachesStep(run, View(), Step.Subscribe);
      id := nextSubscriberId;
      nextSubscriberId := nextSubscriberId + 1;
      var slot := if current.Some? then Some(|history| - 1) else None;
      channels := channels[id := Channel(slot, false, [])];
      subscribers := subscribers + {id};
      Record(Step.Subscribe);
    }

    /** The cancel function: closing happens once, however often it is called. */
    method Cancel(id: Id)
      requires Valid() && phase.Unlocked? && id in channels
      modifies this
      ensures Valid() && run == old(run) + [Step.Cancel(id)] && View() == Next(old(View()), Step.Cancel(id))
      ensures id !in subscribers && channels[id].closed
      ensures id !in old(subscribers) ==> View() == old(View())
    {
      Reached();
      ReachesStep(run, View(), Step.Cancel(id));
      if id in subscribers {
        subscribers := subscribers - {id};
        channels := channels[id := channels[id].(closed := true)];
      }
      Record(Step.Cancel(id));
    }
  }
}
