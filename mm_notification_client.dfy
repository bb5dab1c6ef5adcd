/**
 * MMNotificationClient: the process-wide set of IMMNotificationClients
 * that WASAPI endpoint notifications are delivered to, replaced copy-on-write
 * on registration and deregistration. Clients are identified by an int.
 */
module MmNotificationClient {
  import opened JavaBase

  /** A device notification that is forwarded to every registered client. */
  datatype DeviceEvent = DeviceAdded(deviceId: string) | DeviceRemoved(deviceId: string)
    | DeviceStateChanged(deviceId: string, newState: int)

  /** One delivery of a notification to a client. */
  datatype Delivery = Delivery(client: int, event: DeviceEvent)

  /** The deliveries of one event to each client, in order. */
  function DeliveriesTo(clients: seq<int>, event: DeviceEvent): (r: seq<Delivery>)
    ensures |r| == |clients| && forall i :: 0 <= i < |r| ==> r[i] == Delivery(clients[i], event)
  {
    seq(|clients|, i requires 0 <= i < |clients| => Delivery(clients[i], event))
  }

  /** The clients of a list whose handler throws. */
  function Failing(clients: seq<int>, throwing: set<int>): seq<int>
  {
    if clients == [] then []
    else
      var last := clients[|clients| - 1];
      Failing(clients[..|clients| - 1], throwing) + (if last in throwing then [last] else [])
  }

  /** The registered clients of a (nullable) notify set. */
  function Members(notifySet: Option<seq<int>>): seq<int>
  {
    if notifySet.None? then [] else notifySet.value
  }

  /** The NullPointerException of a null client. */
  datatype RegistrationError = NullClient

  /** The static state of MMNotificationClient. */
  class Registry {
    var pNotifySet: Option<seq<int>>
    /** The notifications delivered to clients so far. */
    var deliveries: seq<Delivery>
    /** The clients whose handler threw, in order, each logged and skipped. */
    var failures: seq<int>

    /** A set is either absent or holds distinct clients, at least one. */
    predicate Valid()
      reads this
    {
      pNotifySet.Some? ==> pNotifySet.value != [] && Distinct(pNotifySet.value)
    }

    constructor()
      ensures Valid() && pNotifySet == None && deliveries == [] && failures == []
    {
      pNotifySet := None;
      deliveries := [];
      failures := [];
    }

    /**
     * RegisterEndpointNotificationCallback: throws on null, does nothing for
     * a registered client and otherwise adds it last to a new set.
     */
    method Register(client: Option<int>) returns (error: Option<RegistrationError>)
      requires Valid()
      modifies this
      ensures Valid() && deliveries == old(deliveries) && failures == old(failures)
      ensures client.None? ==> error == Some(NullClient) && pNotifySet == old(pNotifySet)
      ensures client.Some? ==> error.None? && pNotifySet == Some(AppendIfAbsent(Members(old(pNotifySet)), client.value))
    {
      if client.None? {
        return Some(NullClient);
      }
      var newSet: seq<int>;
      if pNotifySet.None? {
        newSet := [];
      } else if client.value in pNotifySet.value {
        return None;
      } else {
        newSet := pNotifySet.value;
      }
      AppendIfAbsentDistinct(newSet, client.value);
      newSet := newSet + [client.value];
      pNotifySet := Some(newSet);
      return None;
    }

    /**
     * UnregisterEndpointNotificationCallback: throws on null, ignores an
     * unregistered client, drops the set when its last client leaves and
     * otherwise removes the client from a copy.
     */
    method Unregister(client: Option<int>) returns (error: Option<RegistrationError>)
      requires Valid()
      modifies this
      ensures Valid() && deliveries == old(deliveries) && failures == old(failures)
      ensures client.None? ==> error == Some(NullClient) && pNotifySet == old(pNotifySet)
      ensures client.Some? ==>
        error.None? &&
        var rest := RemoveFirst(Members(old(pNotifySet)), client.value);
        pNotifySet == if rest == [] then None else Some(rest)
      ensures client.Some? ==> client.value !in Members(pNotifySet)
    {
      if client.None? {
        return Some(NullClient);
      }
      if pNotifySet.Some? && client.value in pNotifySet.value {
        var rest := RemoveFirst(pNotifySet.value, client.value);
        RemoveFirstDistinct(pNotifySet.value, client.value);
        if |pNotifySet.value| == 1 {
          pNotifySet := None;
        } else {
          pNotifySet := Some(rest);
        }
      }
      return None;
    }

    /**
     * The delivery loop of OnDeviceAdded, OnDeviceRemoved and
     * OnDeviceStateChanged: every registered client is notified in order,
     * and a client whose handler throws (those in `throwing`) is logged and
     * does not stop the others.
     */
    method Dispatch(event: DeviceEvent, throwing: set<int>)
      modifies this
      ensures pNotifySet == old(pNotifySet)
      ensures deliveries == old(deliveries) + DeliveriesTo(Members(old(pNotifySet)), event)
      ensures failures == old(failures) + Failing(Members(old(pNotifySet)), throwing)
    {
      var snapshot := pNotifySet;
      if snapshot.Some? {
        var clients := snapshot.value;
        var i := 0;
        while i < |clients|
          invariant 0 <= i <= |clients| && pNotifySet == snapshot
          invariant deliveries == old(deliveries) + DeliveriesTo(clients[..i], event)
          invariant failures == old(failures) + Failing(clients[..i], throwing)
        {
          assert clients[..i + 1][..i] == clients[..i];
          assert DeliveriesTo(clients[..i + 1], event) == DeliveriesTo(clients[..i], event) + [Delivery(clients[i], event)];
          deliveries := deliveries + [Delivery(clients[i], event)];
          if clients[i] in throwing {
            failures := failures + [clients[i]];
          }
          i := i + 1;
        }
        assert clients[..i] == clients;
      }
    }

    /** OnDeviceAdded(pwstrDeviceId). */
    method OnDeviceAdded(deviceId: string, throwing: set<int>)
      modifies this
      ensures pNotifySet == old(pNotifySet)
      ensures deliveries == old(deliveries) + DeliveriesTo(Members(old(pNotifySet)), DeviceAdded(deviceId))
      ensures failures == old(failures) + Failing(Members(old(pNotifySet)), throwing)
    {
      Dispatch(DeviceAdded(deviceId), throwing);
    }

    /** OnDeviceRemoved(pwstrDeviceId). */
    method OnDeviceRemoved(deviceId: string, throwing: set<int>)
      modifies this
      ensures pNotifySet == old(pNotifySet)
      ensures deliveries == old(deliveries) + DeliveriesTo(Members(old(pNotifySet)), DeviceRemoved(deviceId))
      ensures failures == old(failures) + Failing(Members(old(pNotifySet)), throwing)
    {
      Dispatch(DeviceRemoved(deviceId), throwing);
    }

    /** OnDeviceStateChanged(pwstrDeviceId, dwNewState). */
    method OnDeviceStateChanged(deviceId: string, newState: int, throwing: set<int>)
      modifies this
      ensures pNotifySet == old(pNotifySet)
      ensures deliveries == old(deliveries) + DeliveriesTo(Members(old(pNotifySet)), DeviceStateChanged(deviceId, newState))
      ensures failures == old(failures) + Failing(Members(old(pNotifySet)), throwing)
    {
      Dispatch(DeviceStateChanged(deviceId, newState), throwing);
    }
  }

  /**
   * Registering a new client and then unregistering it gives back the
   * clients registered before, in their order.
   */
  lemma {:induction false} RegisterThenUnregister(clients: seq<int>, client: int)
    requires client !in clients
    ensures RemoveFirst(AppendIfAbsent(clients, client), client) == clients
  {
    var xs := clients + [client];
    assert SeqIndexOf(xs, client) == |clients| by {
      assert xs[|clients|] == client && client !in xs[..|clients|] by {
        assert xs[..|clients|] == clients;
      }
    }
    assert xs[..|clients|] == clients && xs[|clients| + 1..] == [];
  }
}
