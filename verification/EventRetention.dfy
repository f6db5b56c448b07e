/**
  Retention of serialized events. The text of an event is stored while its block is not final,
  because a dropped block needs it, and a periodic job deletes the text up to the finalized
  height and records how far it came. Persistence of all texts is switched off.
 */
module EventRetention {
  import opened Results

  datatype Event = Event(id: string, text: string, topics: seq<string>)

  /** An event ID is the hash of the encoded event, height included, so it fixes the height. */
  datatype EventKey = EventKey(height: nat, id: string)

  /** A row to upsert; an absent text leaves the stored text of the row as it is. */
  datatype EventInfo = EventInfo(key: EventKey, eventStr: Option<string>)

  datatype TopicInfo = TopicInfo(eventID: string, height: nat, topic: string)

  /** The events table: the stored text of each row, if any. */
  type Events = map<EventKey, Option<string>>

  // ----- Indexing -----

  function InfoOf(height: nat, isFinal: bool, e: Event): (info: EventInfo) {
    EventInfo(EventKey(height, e.id), if isFinal then None else Some(e.text))
  }

  function TopicsOf(height: nat, events: seq<Event>): (topics: seq<TopicInfo>) {
    if events == [] then []
    else
      var e := events[|events| - 1];
      TopicsOf(height, events[..|events| - 1]) +
      seq(|e.topics|, i requires 0 <= i < |e.topics| => TopicInfo(e.id, height, e.topics[i]))
  }

  /** `getEventsInfoToIndex`. */
  method GetEventsInfoToIndex(height: nat, isFinal: bool, events: seq<Event>)
    returns (eventsInfo: seq<EventInfo>, eventTopicsInfo: seq<TopicInfo>)
    ensures |eventsInfo| == |events|
    ensures forall i :: 0 <= i < |events| ==> eventsInfo[i] == InfoOf(height, isFinal, events[i])
    ensures eventTopicsInfo == TopicsOf(height, events)
  {
    eventsInfo, eventTopicsInfo := [], [];
    for i := 0 to |events|
      invariant |eventsInfo| == i && forall j :: 0 <= j < i ==> eventsInfo[j] == InfoOf(height, isFinal, events[j])
      invariant eventTopicsInfo == TopicsOf(height, events[..i])
    {
      var e := events[i];
      eventsInfo := eventsInfo + [EventInfo(EventKey(height, e.id), if !isFinal then Some(e.text) else None)];
      ghost var before := eventTopicsInfo;
      for j := 0 to |e.topics|
        invariant eventTopicsInfo
               == before + seq(j, k requires 0 <= k < |e.topics| => TopicInfo(e.id, height, e.topics[k]))
      {
        eventTopicsInfo := eventTopicsInfo + [TopicInfo(e.id, height, e.topics[j])];
      }
      assert events[..i + 1][..i] == events[..i];
    }
    assert events[..|events|] == events;
  }

  /** The topic rows are one for each topic of each event, and no other. */
  lemma {:induction false} TopicsAreAll(height: nat, events: seq<Event>, x: TopicInfo)
    ensures x in TopicsOf(height, events) <==>
            x.height == height &&
            exists i :: 0 <= i < |events| && events[i].id == x.eventID && x.topic in events[i].topics
    decreases |events|
  {
    if events == [] {
    } else {
      var front, e := events[..|events| - 1], events[|events| - 1];
      TopicsAreAll(height, front, x);
      assert forall i :: 0 <= i < |front| ==> front[i] == events[i];
      var own := seq(|e.topics|, j requires 0 <= j < |e.topics| => TopicInfo(e.id, height, e.topics[j]));
      if x.height == height && e.id == x.eventID && x.topic in e.topics {
        var j :| 0 <= j < |e.topics| && e.topics[j] == x.topic;
        assert own[j] == x;
      }
    }
  }

  /** The upsert: an insert, or a merge of the columns that are present. */
  function UpsertOne(stored: Events, info: EventInfo): (stored': Events) {
    if info.key in stored && info.eventStr.None? then stored else stored[info.key := info.eventStr]
  }

  /** The table after a block's events have been indexed. */
  function Indexed(stored: Events, height: nat, isFinal: bool, events: seq<Event>): (stored': Events) {
    if events == [] then stored
    else
      UpsertOne(Indexed(stored, height, isFinal, events[..|events| - 1]),
                InfoOf(height, isFinal, events[|events| - 1]))
  }

  // ----- Deleting texts -----

  /** The events table and the height up to which texts have been deleted, each with its copy in
      the open transaction, and the number of database calls that succeed before one fails. */
  class EventStore {
    var stored: Events
    var lastDeletedHeight: Option<nat>
    var pendingStored: Events
    var pendingHeight: Option<nat>
    var calls: nat

    method IndexEvents(height: nat, isFinal: bool, events: seq<Event>)
      modifies this`stored
      ensures stored == Indexed(old(stored), height, isFinal, events)
    {
      var eventsInfo, _ := GetEventsInfoToIndex(height, isFinal, events);
      for i := 0 to |eventsInfo|
        invariant stored == Indexed(old(stored), height, isFinal, events[..i])
      {
        var info := eventsInfo[i];
        if !(info.key in stored && info.eventStr.None?) {
          stored := stored[info.key := info.eventStr];
        }
        assert events[..i + 1][..i] == events[..i];
      }
      assert events[..|events|] == events;
    }

    method Await() returns (ok: bool)
      modifies this`calls
      ensures ok <==> old(calls) > 0
      ensures calls == if ok then old(calls) - 1 else 0
    {
      ok := calls > 0;
      calls := if ok then calls - 1 else 0;
    }

    /** The update that sets the text of every event in the range to null. */
    method ClearTexts(from: nat, to: nat) returns (ok: bool)
      modifies this`pendingStored, this`calls
      ensures ok <==> old(calls) > 0
      ensures calls == if ok then old(calls) - 1 else 0
      ensures pendingStored.Keys == old(pendingStored).Keys
      ensures forall k :: k in pendingStored ==>
                pendingStored[k] == if ok && from <= k.height <= to then None else old(pendingStored)[k]
    {
      ok := Await();
      if ok {
        pendingStored := map k | k in pendingStored :: if from <= k.height <= to then None else pendingStored[k];
      }
    }

    /** The commit of the open transaction, or its rollback after an error. */
    method CloseTransaction(ok: bool) returns (committed: bool)
      modifies this
      ensures committed <==> ok && old(calls) > 0
      ensures stored == (if committed then old(pendingStored) else old(stored))
      ensures lastDeletedHeight == (if committed then old(pendingHeight) else old(lastDeletedHeight))
      ensures pendingStored == stored && pendingHeight == lastDeletedHeight
    {
      committed := false;
      if ok {
        committed := Await();
      }
      if committed {
        stored, lastDeletedHeight := pendingStored, pendingHeight;
      }
      pendingStored, pendingHeight := stored, lastDeletedHeight;
    }

    /** `deleteEventStrTillFinalizedHeight`, which swallows its errors. When one of its calls fails
        nothing has changed. Either way the retention law is kept, and after a success exactly the
        texts above the finalized height are left. */
    method DeleteEventStrTillFinalizedHeight(genesis: nat, ghost textOf: TextOf, finalized: nat) returns (ok: bool)
      modifies this
      ensures ok <==> 3 <= old(calls)
      ensures !ok ==> stored == old(stored) && lastDeletedHeight == old(lastDeletedHeight)
      ensures ok ==> (State(stored, lastDeletedHeight, finalized)
                      == TextsDeleted(genesis, State(old(stored), old(lastDeletedHeight), finalized)))
      ensures old(Retained(genesis, textOf, State(stored, lastDeletedHeight, finalized))) ==>
                Retained(genesis, textOf, State(stored, lastDeletedHeight, finalized)) &&
                (ok ==> forall k :: k in stored ==>
                   if k.height <= finalized then stored[k].None? else stored[k] == old(stored)[k])
    {
      pendingStored, pendingHeight := stored, lastDeletedHeight;
      ok := ClearTexts(FromHeight(genesis, lastDeletedHeight), finalized);
      if ok {
        ok := Await();
      }
      if ok {
        pendingHeight := Some(finalized);
      }
      ok := CloseTransaction(ok);
    }
  }

  datatype State = State(stored: Events, lastDeletedHeight: Option<nat>, finalized: nat)

  /** `fromHeight ? fromHeight + 1 : genesisHeight`: a stored zero starts over. */
  function FromHeight(genesis: nat, last: Option<nat>): (h: nat) {
    if last.Some? && last.value != 0 then last.value + 1 else genesis
  }

  function TextsDeleted(genesis: nat, s: State): (s': State) {
    var from := FromHeight(genesis, s.lastDeletedHeight);
    State(map k | k in s.stored :: if from <= k.height <= s.finalized then None else s.stored[k],
          Some(s.finalized), s.finalized)
  }

  // ----- Retention over all runs -----

  /** The serialized event behind a key. An event ID is a hash of the whole event, so there is one. */
  type TextOf = EventKey -> string

  /** Every event above the finalized height keeps its own text, and every event up to the deletion
      watermark, which never passes the finalized height, has none. */
  ghost predicate Retained(genesis: nat, textOf: TextOf, s: State) {
    (forall k :: k in s.stored ==> genesis <= k.height) &&
    (forall k :: k in s.stored && s.finalized < k.height ==> s.stored[k] == Some(textOf(k))) &&
    (s.lastDeletedHeight.Some? ==>
       s.lastDeletedHeight.value <= s.finalized &&
       forall k :: k in s.stored && k.height <= s.lastDeletedHeight.value ==> s.stored[k].None?)
  }

  datatype Step =
    | IndexBlock(height: nat, isFinal: bool, events: seq<Event>)
    | Finalize(finalized: nat)
    | DeleteTexts

  function Next(genesis: nat, s: State, step: Step): (s': State) {
    match step
    case IndexBlock(height, isFinal, events) => s.(stored := Indexed(s.stored, height, isFinal, events))
    case Finalize(f) => s.(finalized := f)
    case DeleteTexts => TextsDeleted(genesis, s)
  }

  /** Each event carries the text that belongs to its key. */
  predicate OwnTexts(height: nat, events: seq<Event>, textOf: TextOf) {
    forall i :: 0 <= i < |events| ==> events[i].text == textOf(EventKey(height, events[i].id))
  }

  /** Blocks start at genesis, finality only grows, and an event's ID fixes its text. */
  predicate Possible(genesis: nat, textOf: TextOf, s: State, step: Step) {
    match step
    case IndexBlock(height, _, events) => genesis <= height && OwnTexts(height, events, textOf)
    case Finalize(f) => s.finalized <= f
    case DeleteTexts => true
  }

  /** The guard on indexing a block whose finality may have been read earlier: a block marked
      final above the finalized height brings no new event, and a block at or below the
      deletion watermark is marked final. */
  predicate Guarded(s: State, step: Step) {
    step.IndexBlock? && step.events != [] ==>
      (s.finalized < step.height && step.isFinal ==>
         forall i :: 0 <= i < |step.events| ==> EventKey(step.height, step.events[i].id) in s.stored) &&
      (s.lastDeletedHeight.Some? && step.height <= s.lastDeletedHeight.value ==> step.isFinal)
  }

  /** `k` is the key of one of the events of a block at `height`. */
  predicate Listed(height: nat, events: seq<Event>, k: EventKey) {
    k.height == height && events != [] &&
    (events[|events| - 1].id == k.id || Listed(height, events[..|events| - 1], k))
  }

  lemma {:induction false} ListedIffSome(height: nat, events: seq<Event>, k: EventKey)
    ensures Listed(height, events, k) <==> exists i :: 0 <= i < |events| && EventKey(height, events[i].id) == k
    decreases |events|
  {
    if events == [] {
    } else {
      var rest := events[..|events| - 1];
      ListedIffSome(height, rest, k);
      assert forall i :: 0 <= i < |rest| ==> rest[i] == events[i];
    }
  }

  /** What indexing a block does to the row of key `k`. */
  ghost predicate RowIndexed(stored: Events, after: Events, height: nat, isFinal: bool, events: seq<Event>,
                             textOf: TextOf, k: EventKey) {
    (k in after <==> k in stored || Listed(height, events, k)) &&
    (k in after ==>
       if Listed(height, events, k) && !isFinal then after[k] == Some(textOf(k))
       else if k in stored then after[k] == stored[k]
       else after[k].None?)
  }

  lemma {:induction false} IndexedRows(stored: Events, height: nat, isFinal: bool, events: seq<Event>, textOf: TextOf,
                                       k: EventKey)
    requires OwnTexts(height, events, textOf)
    ensures RowIndexed(stored, Indexed(stored, height, isFinal, events), height, isFinal, events, textOf, k)
    decreases |events|
  {
    if events == [] {
    } else {
      IndexedRows(stored, height, isFinal, events[..|events| - 1], textOf, k);
    }
  }

  /** One step keeps the retention law if and only if its guard holds. */
  lemma StepRetainedIff(genesis: nat, textOf: TextOf, s: State, step: Step)
    requires Retained(genesis, textOf, s) && Possible(genesis, textOf, s, step)
    ensures Retained(genesis, textOf, Next(genesis, s, step)) <==> Guarded(s, step)
  {
    match step
    case IndexBlock(height, isFinal, events) =>
      IndexRetainedIff(genesis, textOf, s, height, isFinal, events);
    case Finalize(f) =>
    case DeleteTexts =>
  }

  lemma IndexRetainedIff(genesis: nat, textOf: TextOf, s: State, height: nat, isFinal: bool, events: seq<Event>)
    requires Retained(genesis, textOf, s) && genesis <= height && OwnTexts(height, events, textOf)
    ensures Retained(genesis, textOf, s.(stored := Indexed(s.stored, height, isFinal, events))) <==>
            Guarded(s, IndexBlock(height, isFinal, events))
  {
    var after := Indexed(s.stored, height, isFinal, events);
    forall k
      ensures RowIndexed(s.stored, after, height, isFinal, events, textOf, k)
    {
      IndexedRows(s.stored, height, isFinal, events, textOf, k);
    }
    forall k
      ensures Listed(height, events, k) <==> exists i :: 0 <= i < |events| && EventKey(height, events[i].id) == k
    {
      ListedIffSome(height, events, k);
    }
    RetainedFromRows(genesis, textOf, s, after, height, isFinal, events);
  }

  lemma RetainedFromRows(genesis: nat, textOf: TextOf, s: State, after: Events, height: nat, isFinal: bool,
                         events: seq<Event>)
    requires Retained(genesis, textOf, s) && genesis <= height
    requires forall k :: RowIndexed(s.stored, after, height, isFinal, events, textOf, k)
    requires forall k :: Listed(height, events, k) <==>
               exists i :: 0 <= i < |events| && EventKey(height, events[i].id) == k
    ensures Retained(genesis, textOf, s.(stored := after)) <==> Guarded(s, IndexBlock(height, isFinal, events))
  {
    forall i | 0 <= i < |events|
      ensures Listed(height, events, EventKey(height, events[i].id)) && EventKey(height, events[i].id) in after
    {
      assert RowIndexed(s.stored, after, height, isFinal, events, textOf, EventKey(height, events[i].id));
    }
    if Guarded(s, IndexBlock(height, isFinal, events)) {
      assert forall k :: k in after ==> RowIndexed(s.stored, after, height, isFinal, events, textOf, k);
    } else {
      var i := 0;
      if s.finalized < height && isFinal {
        i :| 0 <= i < |events| && EventKey(height, events[i].id) !in s.stored;
      }
      var k := EventKey(height, events[i].id);
      assert Listed(height, events, k) && RowIndexed(s.stored, after, height, isFinal, events, textOf, k);
    }
  }

  /** When normalising and indexing a block are one step, its guard holds. */
  lemma AtomicIndexingIsGuarded(genesis: nat, textOf: TextOf, s: State, height: nat, events: seq<Event>)
    requires Retained(genesis, textOf, s)
    ensures Guarded(s, IndexBlock(height, height <= s.finalized, events))
  {
  }

  /** Deleting texts leaves exactly those above the finalized height. */
  lemma TextsDeletedAreFinal(genesis: nat, textOf: TextOf, s: State)
    requires Retained(genesis, textOf, s)
    ensures var s' := TextsDeleted(genesis, s);
            s'.stored.Keys == s.stored.Keys && s'.lastDeletedHeight == Some(s.finalized) &&
            forall k :: k in s'.stored ==>
              if k.height <= s.finalized then s'.stored[k].None? else s'.stored[k] == s.stored[k]
  {
  }

  /** In every state, retained or not, a deletion clears exactly the texts above the last deletion's
      height, or from genesis when there was none or it was zero, up to the finalized height. */
  lemma DeletionRange(genesis: nat, s: State)
    ensures var s' := TextsDeleted(genesis, s);
            var again := s.lastDeletedHeight.Some? && s.lastDeletedHeight.value > 0;
            s'.stored.Keys == s.stored.Keys &&
            forall k :: k in s.stored ==>
              s'.stored[k] == if k.height <= s.finalized &&
                                 (if again then k.height > s.lastDeletedHeight.value else k.height >= genesis)
                              then None else s.stored[k]
  {
  }

  /** Why both writes share a transaction: the watermark alone may be written if and only if no
      text is left below it, while the deletion alone is always harmless. */
  lemma TornDeletionRetainedIff(genesis: nat, textOf: TextOf, s: State)
    requires Retained(genesis, textOf, s)
    ensures Retained(genesis, textOf, s.(stored := TextsDeleted(genesis, s).stored))
    ensures Retained(genesis, textOf, s.(lastDeletedHeight := Some(s.finalized))) <==>
            forall k :: k in s.stored && k.height <= s.finalized ==> s.stored[k].None?
  {
  }

  predicate AllPossible(genesis: nat, textOf: TextOf, s: State, steps: seq<Step>)
    decreases |steps|
  {
    steps != [] ==>
      Possible(genesis, textOf, s, steps[0]) &&
      AllPossible(genesis, textOf, Next(genesis, s, steps[0]), steps[1..])
  }

  ghost predicate AlwaysRetained(genesis: nat, textOf: TextOf, s: State, steps: seq<Step>)
    decreases |steps|
  {
    Retained(genesis, textOf, s) &&
    (steps != [] ==> AlwaysRetained(genesis, textOf, Next(genesis, s, steps[0]), steps[1..]))
  }

  predicate AlwaysGuarded(genesis: nat, s: State, steps: seq<Step>)
    decreases |steps|
  {
    steps != [] ==> Guarded(s, steps[0]) && AlwaysGuarded(genesis, Next(genesis, s, steps[0]), steps[1..])
  }

  /** Retention over all runs, exactly: every state of a run satisfies the law if and only if
      every indexing step met its guard. */
  lemma {:induction false} RetainedIff(genesis: nat, textOf: TextOf, s: State, steps: seq<Step>)
    requires Retained(genesis, textOf, s) && AllPossible(genesis, textOf, s, steps)
    ensures AlwaysRetained(genesis, textOf, s, steps) <==> AlwaysGuarded(genesis, s, steps)
    decreases |steps|
  {
    if steps == [] {
    } else {
      StepRetainedIff(genesis, textOf, s, steps[0]);
      var s' := Next(genesis, s, steps[0]);
      if Retained(genesis, textOf, s') {
        RetainedIff(genesis, textOf, s', steps[1..]);
      } else {
        assert !AlwaysRetained(genesis, textOf, s', steps[1..]);
      }
    }
  }
}
