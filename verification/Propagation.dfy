/** The whole way of a publication: through the store's channel, the event
    stream and the decoder to the edge's refresh. */
module Propagation {
  import opened Text
  import EventStream
  import EventFrames
  import BundleEvent
  import Store = ConfigStore
  import Sync = ConfigSync

  /** The versions published at some positions. */
  function VersionsAt(history: seq<string>, positions: seq<nat>): seq<string>
    requires forall i :: 0 <= i < |positions| ==> positions[i] < |history|
  {
    seq(|positions|, i requires 0 <= i < |positions| => history[positions[i]])
  }

  /** What the handler writes for a consumer: one announcement for each version it
      received, in that order, with keep-alive comments anywhere. */
  ghost predicate WrittenFor(s: Store.State, id: Store.Id, messages: seq<BundleEvent.Message>) {
    && id in s.channels
    && (forall i :: 0 <= i < |s.channels[id].received| ==> s.channels[id].received[i] < |s.history|)
    && BundleEvent.Versions(messages) == VersionsAt(s.history, s.channels[id].received)
  }

  /** What the edge hears over a connection, however its text is cut. */
  function HeardOver(chunks: seq<string>): seq<string> {
    BundleEvent.Heard(EventStream.FedAll(EventStream.IDLE, chunks).1)
  }

  /** The edge hears exactly the versions its channel received: each names the
      publication at a position, and the positions strictly increase. */
  lemma HeardIsReceived(steps: seq<Store.Step>, s: Store.State, id: Store.Id,
                        messages: seq<BundleEvent.Message>, chunks: seq<string>)
    requires Store.Reaches(Store.EMPTY, steps, s) && WrittenFor(s, id, messages)
    requires EventStream.Concat(chunks) == EventFrames.StreamText(BundleEvent.Written(messages))
    ensures HeardOver(chunks) == VersionsAt(s.history, s.channels[id].received)
    ensures Store.StrictlyIncreasing(s.channels[id].received)
  {
    BundleEvent.VersionsArrive(messages, chunks);
    Store.LatestReachesEverySubscriber(steps, s);
  }

  /** A bundle event asks for a refresh unless it names the version held. */
  predicate Asks(e: Sync.State, announced: string) {
    e.snapshot.None? || e.snapshot.value.version != announced
  }

  function Handled(e: Sync.State, announced: string): Sync.State {
    if Asks(e, announced) then Sync.Next(e, Sync.Refresh) else e
  }

  /** End to end. Take any announcement an edge hears: it names the publication at
      a position its channel received. If the edge does not hold that version yet,
      the refresh asked for, once it succeeds and whatever is published meanwhile,
      leaves the edge on that publication or a later one exactly when it did not
      join a refresh answered before that publication. */
  lemma AnnouncementReachesEdge(steps: seq<Store.Step>, s: Store.State, id: Store.Id,
                                messages: seq<BundleEvent.Message>, chunks: seq<string>, i: nat,
                                edgeSteps: seq<Sync.Step>, e: Sync.State, later: seq<Sync.Step>, u: Sync.State)
    requires Store.Reaches(Store.EMPTY, steps, s) && WrittenFor(s, id, messages)
    requires EventStream.Concat(chunks) == EventFrames.StreamText(BundleEvent.Written(messages))
    requires i < |s.channels[id].received|
    requires Sync.Reaches(Sync.START, edgeSteps, e) && s.history <= e.history
    requires Sync.Reaches(Handled(e, s.history[s.channels[id].received[i]]), later, u) && Sync.Clear !in later
    ensures var position := s.channels[id].received[i];
      && |HeardOver(chunks)| == |s.channels[id].received|
      && HeardOver(chunks)[i] == e.history[position]
      && (Asks(e, HeardOver(chunks)[i]) && Sync.Succeeded(u) ==>
            && u.confirmed != []
            && (Sync.Last(u.confirmed) >= position <==> !Sync.AnsweredBefore(e, position)))
  {
    hide HeardOver, EventStream.Concat, EventFrames.StreamText, BundleEvent.Written, Sync.Next;
    HeardIsReceived(steps, s, id, messages, chunks);
    var position := s.channels[id].received[i];
    if Asks(e, s.history[position]) && Sync.Succeeded(u) {
      Sync.AnnouncedRefreshIff(edgeSteps, e, position, later, u);
    }
  }

  /** When publishing has come to rest and a live subscriber has received and
      written everything, the last announcement its edge hears is the current
      version, and handling it leaves the edge on the current version: at once if
      it holds it already, and otherwise by the refresh asked for once it succeeds,
      unless that joined one answered before. */
  lemma RestLeavesEdgeCurrent(steps: seq<Store.Step>, s: Store.State, id: Store.Id,
                              messages: seq<BundleEvent.Message>, chunks: seq<string>,
                              edgeSteps: seq<Sync.Step>, e: Sync.State, later: seq<Sync.Step>, u: Sync.State)
    requires Store.Reaches(Store.EMPTY, steps, s) && WrittenFor(s, id, messages)
    requires EventStream.Concat(chunks) == EventFrames.StreamText(BundleEvent.Written(messages))
    requires s.phase.Unlocked? && id in s.subscribers && s.channels[id].slot.None? && s.history != []
    requires Sync.Reaches(Sync.START, edgeSteps, e) && e.history == s.history == u.history
    requires Sync.Reaches(Handled(e, s.history[|s.history| - 1]), later, u) && Sync.Clear !in later
    ensures var heard, current := HeardOver(chunks), s.history[|s.history| - 1];
      var edge := if Asks(e, current) then u else e;
      && heard != [] && heard[|heard| - 1] == current
      && ((Asks(e, current) ==> Sync.Succeeded(u) && !Sync.AnsweredBefore(e, |s.history| - 1)) ==>
            edge.snapshot.Some? && edge.snapshot.value.version == current)
  {
    hide HeardOver, EventStream.Concat, EventFrames.StreamText, BundleEvent.Written, WrittenFor;
    hide Sync.Next, Store.Reaches, Sync.Reaches;
    LastReceivedIsCurrent(steps, s, id, messages, chunks);
    var current := s.history[|s.history| - 1];
    if Asks(e, current) && Sync.Succeeded(u) {
      Sync.AnnouncedRefreshIff(edgeSteps, e, |s.history| - 1, later, u);
    }
  }

  lemma LastReceivedIsCurrent(steps: seq<Store.Step>, s: Store.State, id: Store.Id,
                              messages: seq<BundleEvent.Message>, chunks: seq<string>)
    requires Store.Reaches(Store.EMPTY, steps, s) && WrittenFor(s, id, messages)
    requires EventStream.Concat(chunks) == EventFrames.StreamText(BundleEvent.Written(messages))
    requires s.phase.Unlocked? && id in s.subscribers && s.channels[id].slot.None? && s.history != []
    ensures HeardOver(chunks) != [] && HeardOver(chunks)[|HeardOver(chunks)| - 1] == s.history[|s.history| - 1]
  {
    hide HeardOver, EventStream.Concat, EventFrames.StreamText, BundleEvent.Written;
    HeardIsReceived(steps, s, id, messages, chunks);
    Store.LatestReachesEverySubscriber(steps, s);
  }
}
