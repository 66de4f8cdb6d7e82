/**
 * util/event.py: a latest-value publish/subscribe bus. A subscriber is a
 * single-slot mailbox plus an event flag (`threading.Event` is modelled as
 * the boolean it holds); the publisher keeps, per topic, the list of
 * subscribers registered on it.
 */
module Event {
  import opened Json

  class Subscriber {
    const name: string
    /** The mailbox; `JNull` is Python's `None`, the empty slot. */
    var message: Json
    /** Whether the subscriber's event is set. */
    var flag: bool

    constructor (name: string)
      ensures this.name == name && message == JNull && !flag
    {
      this.name := name;
      message := JNull;
      flag := false;
    }

    /**
     * `receive` once its wait is over: with the flag unset nothing was
     * published and it returns None; otherwise it hands over the stored
     * message and empties the slot, leaving the flag set.
     */
    method Receive() returns (r: Json)
      modifies this`message
      ensures !old(flag) ==> r == JNull && message == old(message)
      ensures old(flag) ==> r == old(message) && message == JNull
      ensures flag == old(flag)
    {
      if !flag {
        return JNull;
      }
      r := message;
      message := JNull;
    }

    /** `event.clear()`, which callers of `receive` are told to do once done. */
    method ClearEvent()
      modifies this`flag
      ensures !flag && message == old(message)
    {
      flag := false;
    }
  }

  /** `[sub for sub in subs if sub != subscriber]`: the list without `subscriber`, in order. */
  function Without(subs: seq<Subscriber>, subscriber: Subscriber): (r: seq<Subscriber>)
    ensures |r| <= |subs|
  {
    if subs == [] then []
    else (if subs[0] == subscriber then [] else [subs[0]]) + Without(subs[1..], subscriber)
  }

  /** The filtered list holds every other subscriber of the list, and only those. */
  lemma {:induction false} WithoutFilters(subs: seq<Subscriber>, subscriber: Subscriber)
    ensures subscriber !in Without(subs, subscriber)
    ensures forall x :: x in Without(subs, subscriber) <==> x in subs && x != subscriber
  {
    if subs != [] {
      WithoutFilters(subs[1..], subscriber);
      assert forall x :: x in subs <==> x == subs[0] || x in subs[1..];
    }
  }

  /** Filtering a concatenation filters each part and keeps their order. */
  lemma {:induction false} WithoutAppend(a: seq<Subscriber>, b: seq<Subscriber>, subscriber: Subscriber)
    ensures Without(a + b, subscriber) == Without(a, subscriber) + Without(b, subscriber)
  {
    if a == [] {
      assert a + b == b;
    } else {
      assert (a + b)[0] == a[0] && (a + b)[1..] == a[1..] + b;
      WithoutAppend(a[1..], b, subscriber);
    }
  }

  /** A list without `subscriber` is left as it is. */
  lemma {:induction false} WithoutAbsent(subs: seq<Subscriber>, subscriber: Subscriber)
    requires subscriber !in subs
    ensures Without(subs, subscriber) == subs
  {
    if subs != [] {
      WithoutAbsent(subs[1..], subscriber);
      assert subs == [subs[0]] + subs[1..];
    }
  }

  class Publisher {
    /** Topic to the subscribers registered on it, in registration order. */
    var subscribers: map<string, seq<Subscriber>>

    constructor ()
      ensures subscribers == map[]
    {
      subscribers := map[];
    }

    /** The subscribers that a publish on `topic` reaches. */
    function Registered(topic: string): set<Subscriber>
      reads this
    {
      if topic in subscribers then set s | s in subscribers[topic] else {}
    }

    /** `subscribe`: append to the topic's list, creating it if absent. */
    method Subscribe(subscriber: Subscriber, topic: string)
      modifies this
      ensures topic in old(subscribers) ==>
                subscribers == old(subscribers)[topic := old(subscribers)[topic] + [subscriber]]
      ensures topic !in old(subscribers) ==> subscribers == old(subscribers)[topic := [subscriber]]
    {
      if topic !in subscribers {
        subscribers := subscribers[topic := []];
        assert [] + [subscriber] == [subscriber];
      }
      subscribers := subscribers[topic := subscribers[topic] + [subscriber]];
    }

    /** `unsubscribe`: drop every occurrence of the subscriber from the topic's list; an unknown topic is left alone. */
    method Unsubscribe(subscriber: Subscriber, topic: string)
      modifies this
      ensures topic !in old(subscribers) ==> subscribers == old(subscribers)
      ensures topic in old(subscribers) ==>
                subscribers == old(subscribers)[topic := Without(old(subscribers)[topic], subscriber)]
    {
      if topic !in subscribers {
        return;
      }
      subscribers := subscribers[topic := Without(subscribers[topic], subscriber)];
    }

    /**
     * `publish`: every subscriber registered on the topic gets the message in
     * its slot and its flag raised; nothing else changes (the frame), so a
     * topic without a list changes nothing.
     */
    method Publish(topic: string, message: Json)
      modifies Registered(topic)
      ensures forall s :: s in old(Registered(topic)) ==> s.message == message && s.flag
    {
      if topic in subscribers {
        var subs := subscribers[topic];
        var i := 0;
        while i < |subs|
          invariant 0 <= i <= |subs|
          invariant forall j :: 0 <= j < i ==> subs[j].message == message && subs[j].flag
        {
          subs[i].message := message;
          subs[i].flag := true;
          i := i + 1;
        }
      }
    }
  }

  /** Last publish wins: of two publishes before a `receive`, only the second payload is received. */
  method LastPublishWins(bus: Publisher, sub: Subscriber, topic: string, first: Json, second: Json)
    returns (r: Json)
    requires sub in bus.Registered(topic)
    modifies bus.Registered(topic)
    ensures r == second && sub.message == JNull && sub.flag
  {
    bus.Publish(topic, first);
    bus.Publish(topic, second);
    r := sub.Receive();
  }

  /** Without `event.clear()`, a second `receive` finds the slot already emptied and returns None. */
  method SecondReceiveIsNone(bus: Publisher, sub: Subscriber, topic: string, payload: Json)
    returns (r1: Json, r2: Json)
    requires sub in bus.Registered(topic)
    modifies bus.Registered(topic)
    ensures r1 == payload && r2 == JNull
  {
    bus.Publish(topic, payload);
    r1 := sub.Receive();
    r2 := sub.Receive();
  }
}
