/** The publish outbox with every call run to completion. */
module Outbox {

  const DEFAULT_CAPACITY := 500

  /** The events whose fate is `fate`, in order. */
  ghost function Met<E>(events: seq<E>, fates: seq<Fate>, fate: Fate): (r: seq<E>)
    requires |events| == |fates|
  {
    if events == [] then []
    else
      var last := |events| - 1;
      var before := Met(events[..last], fates[..last], fate);
      if fates[last] == fate then before + [events[last]] else before
  }

  datatype Fate = Delivered | Dropped

  lemma MetOneMore<E>(events: seq<E>, fates: seq<Fate>, event: E, fate: Fate, asked: Fate)
    requires |events| == |fates|
    ensures Met(events + [event], fates + [fate], asked)
         == if fate == asked then Met(events, fates, asked) + [event] else Met(events, fates, asked)
  {
    assert (events + [event])[..|events|] == events && (fates + [fate])[..|fates|] == fates;
  }

  lemma {:induction false} FatesAddUp<E>(events: seq<E>, fates: seq<Fate>)
    requires |events| == |fates|
    ensures |Met(events, fates, Delivered)| + |Met(events, fates, Dropped)| == |events|
  {
    if events != [] {
      FatesAddUp(events[..|events| - 1], fates[..|events| - 1]);
    }
  }

  /** The published events are those that met a fate, in order, followed by the
      queue: whatever was dropped is older than anything still pending, and what
      was delivered was delivered in the order of publication. */
  ghost predicate Conserved<E>(published: seq<E>, fates: seq<Fate>, delivered: seq<E>, evicted: seq<E>, queue: seq<E>) {
    && |fates| + |queue| == |published|
    && published[|fates|..] == queue
    && delivered == Met(published[..|fates|], fates, Delivered)
    && evicted == Met(published[..|fates|], fates, Dropped)
  }

  /** The oldest pending event meets its fate. */
  lemma HeadMeets<E>(published: seq<E>, fates: seq<Fate>, delivered: seq<E>, evicted: seq<E>, queue: seq<E>, fate: Fate)
    requires Conserved(published, fates, delivered, evicted, queue) && queue != []
    ensures Conserved(published, fates + [fate],
                      if fate == Delivered then delivered + [queue[0]] else delivered,
                      if fate == Dropped then evicted + [queue[0]] else evicted, queue[1..])
  {
    var cut := |fates|;
    assert published[..cut + 1] == published[..cut] + [queue[0]] by {
      assert published[cut] == queue[0];
    }
    MetOneMore(published[..cut], fates, queue[0], fate, Delivered);
    MetOneMore(published[..cut], fates, queue[0], fate, Dropped);
    assert published[cut + 1..] == queue[1..];
  }

  lemma OneMorePending<E>(published: seq<E>, fates: seq<Fate>, delivered: seq<E>,
                          evicted: seq<E>, queue: seq<E>, event: E)
    requires Conserved(published, fates, delivered, evicted, queue)
    ensures Conserved(published + [event], fates, delivered, evicted, queue + [event])
  {
    assert (published + [event])[..|fates|] == published[..|fates|];
    assert (published + [event])[|fates|..] == queue + [event];
  }

  lemma DirectDelivery<E>(published: seq<E>, fates: seq<Fate>, delivered: seq<E>, evicted: seq<E>, event: E)
    requires Conserved(published, fates, delivered, evicted, [])
    ensures Conserved(published + [event], fates + [Delivered], delivered + [event], evicted, [])
  {
    hide Conserved, Met;
    OneMorePending(published, fates, delivered, evicted, [], event);
    assert [] + [event] == [event] && [event][1..] == [];
    HeadMeets(published + [event], fates, delivered, evicted, [event], Delivered);
  }

  /** Nothing is lost from the count: published = delivered + pending + dropped. */
  lemma CountsAddUp<E>(published: seq<E>, fates: seq<Fate>, delivered: seq<E>, evicted: seq<E>, queue: seq<E>)
    requires Conserved(published, fates, delivered, evicted, queue)
    ensures |published| == |delivered| + |queue| + |evicted|
  {
    FatesAddUp(published[..|fates|], fates);
  }

  // --- The broker's answers ---

  /** An event offered to the broker, and whether it took it. */
  datatype Offer<E> = Offer(event: E, taken: bool)

  function Taken<E>(events: seq<E>): seq<Offer<E>> {
    seq(|events|, k requires 0 <= k < |events| => Offer(events[k], true))
  }

  /** Events offered one after the other, stopping at the first refusal: `taken` of
      them were taken, and the next one, if there is one, was refused. */
  function Offered<E>(events: seq<E>, taken: nat): seq<Offer<E>>
    requires taken <= |events|
  {
    Taken(events[..taken]) + (if taken == |events| then [] else [Offer(events[taken], false)])
  }

  lemma OneMoreTaken<E>(events: seq<E>, taken: nat)
    requires taken < |events|
    ensures Taken(events[..taken + 1]) == Taken(events[..taken]) + [Offer(events[taken], true)]
  {
    assert events[..taken + 1] == events[..taken] + [events[taken]];
  }

  lemma AllTakenThen<E>(events: seq<E>, event: E, ok: bool)
    ensures Offered(events, |events|) + [Offer(event, ok)] ==
      Offered(events + [event], if ok then |events| + 1 else |events|)
  {
    var all := events + [event];
    assert events[..|events|] == events && all[..|events|] == events && all[..|events| + 1] == all;
    if ok {
      OneMoreTaken(all, |events|);
    }
  }

  lemma NothingOffered<E>()
    ensures Offered<E>([], 0) == []
  {
  }

  lemma StoppedEarlier<E>(events: seq<E>, event: E, taken: nat)
    requires taken < |events|
    ensures Offered(events, taken) == Offered(events + [event], taken)
  {
    assert (events + [event])[..taken] == events[..taken];
  }

  /** A broker that refuses nothing is offered everything. */
  lemma NoRefusalNoRest<E>(events: seq<E>, taken: nat)
    requires taken <= |events|
    ensures (forall o :: o in Offered(events, taken) ==> o.taken) <==> taken == |events|
    ensures events != [] ==> Offered(events, taken) != []
  {
    if taken < |events| {
      assert Offered(events, taken)[|Taken(events[..taken])|] == Offer(events[taken], false);
    }
  }

  class PublishOutbox<E(==)> {
    var queue: seq<E>
    var dropped: nat
    var flushing: bool
    const capacity: nat

    /** Everything handed to `Publish`, taken by the broker, and given to `onDrop`. */
    ghost var published: seq<E>
    ghost var delivered: seq<E>
    ghost var evicted: seq<E>
    ghost var fates: seq<Fate>
    /** Everything offered to the broker, with its answers. */
    ghost var offers: seq<Offer<E>>

    ghost predicate Valid()
      reads this
    {
      && 1 <= capacity && |queue| <= capacity && dropped == |evicted|
      && Conserved(published, fates, delivered, evicted, queue)
    }

    constructor (limit: int := DEFAULT_CAPACITY)
      ensures Valid() && !flushing && published == [] && offers == []
      ensures capacity == if limit < 1 then 1 else limit
    {
      capacity := if limit < 1 then 1 else limit;
      queue, dropped, flushing := [], 0, false;
      published, delivered, evicted, fates, offers := [], [], [], [], [];
    }

    /** The broker takes the event or it does not. */
    method Attempt(event: E) returns (ok: bool)
      modifies `delivered, `offers
      ensures delivered == if ok then old(delivered) + [event] else old(delivered)
      ensures offers == old(offers) + [Offer(event, ok)]
    {
      ok := *;
      offers := offers + [Offer(event, ok)];
      if ok {
        delivered := delivered + [event];
      }
    }

    /** Offers the queue from the front until it is empty or an event is refused;
        does nothing when a drain is already under way. */
    method Flush() returns (count: nat)
      requires Valid()
      modifies this
      ensures Valid() && flushing == old(flushing)
      ensures published == old(published) && evicted == old(evicted)
      ensures count <= |old(queue)| && queue == old(queue)[count..]
      ensures delivered == old(delivered) + old(queue)[..count]
      ensures old(flushing) ==> count == 0 && offers == old(offers)
      ensures !old(flushing) ==> offers == old(offers) + Offered(old(queue), count)
    {
      hide Conserved, Met;
      count := 0;
      if flushing {
        return;
      }
      flushing := true;
      while queue != []
        invariant Valid() && flushing && published == old(published) && evicted == old(evicted)
        invariant count <= |old(queue)| && queue == old(queue)[count..]
        invariant delivered == old(delivered) + old(queue)[..count]
        invariant offers == old(offers) + Taken(old(queue)[..count])
        decreases |queue|
      {
        var next := queue[0];
        ghost var before := delivered;
        var ok := Attempt(next);
        if !ok {
          break;
        }
        OneMoreTaken(old(queue), count);
        HeadMeets(published, fates, before, evicted, queue, Delivered);
        queue := queue[1..];
        fates := fates + [Delivered];
        count := count + 1;
        assert old(queue)[..count] == old(queue)[..count - 1] + [next];
      }
      flushing := false;
    }

    /** The event goes last; at capacity the oldest goes. */
    method Enqueue(event: E)
      requires Valid()
      modifies this
      ensures Valid() && flushing == old(flushing) && delivered == old(delivered) && offers == old(offers)
      ensures published == old(published) + [event]
      ensures |old(queue)| < capacity ==> queue == old(queue) + [event] && evicted == old(evicted)
      ensures |old(queue)| == capacity ==>
        queue == old(queue)[1..] + [event] && evicted == old(evicted) + [old(queue)[0]]
    {
      hide Conserved, Met;
      if |queue| >= capacity {
        HeadMeets(published, fates, delivered, evicted, queue, Dropped);
        evicted := evicted + [queue[0]];
        fates := fates + [Dropped];
        queue := queue[1..];
        dropped := dropped + 1;
      }
      OneMorePending(published, fates, delivered, evicted, queue, event);
      queue := queue + [event];
      published := published + [event];
    }

    /** The broker is offered the backlog and then the event, up to the first refusal.
        The event is delivered if there was none; otherwise it waits behind what is
        left, at the price of at most one eviction. */
    method Publish(event: E) returns (ok: bool, ghost taken: nat)
      requires Valid() && !flushing
      modifies this
      ensures Valid() && !flushing && published == old(published) + [event]
      ensures taken <= |old(queue)| + 1 && offers == old(offers) + Offered(old(queue) + [event], taken)
      ensures ok <==> taken == |old(queue)| + 1
      ensures delivered == old(delivered) + (old(queue) + [event])[..taken]
      ensures |old(queue)| - taken < capacity ==>
        queue == (old(queue) + [event])[taken..] && evicted == old(evicted)
      ensures |old(queue)| - taken == capacity ==>
        queue == old(queue)[1..] + [event] && evicted == old(evicted) + [old(queue)[0]]
    {
      hide Conserved, Met, Offered, Taken;
      taken := 0;
      if |queue| > 0 {
        taken := Flush();
        assert old(queue)[taken..] == queue;
        if |queue| > 0 {
          StoppedEarlier(old(queue), event, taken);
          assert (old(queue) + [event])[taken..] == queue + [event];
          assert (old(queue) + [event])[..taken] == old(queue)[..taken];
          Enqueue(event);
          return false, taken;
        }
        assert old(queue)[..taken] == old(queue);
      } else {
        NothingOffered<E>();
      }
      ghost var before := delivered;
      assert before == old(delivered) + old(queue);
      ok := Attempt(event);
      AllTakenThen(old(queue), event, ok);
      assert (old(queue) + [event])[..|old(queue)|] == old(queue);
      assert (old(queue) + [event])[..|old(queue)| + 1] == old(queue) + [event];
      if !ok {
        assert (old(queue) + [event])[|old(queue)|..] == [event];
        Enqueue(event);
        return;
      }
      taken := taken + 1;
      DirectDelivery(published, fates, before, evicted, event);
      published := published + [event];
      fates := fates + [Delivered];
    }
  }
}
