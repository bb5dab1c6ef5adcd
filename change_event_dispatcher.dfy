/**
 * ChangeEventDispatcher: the listeners of a configuration service, either
 * for every property or for one named property, and the delivery of a
 * property change event to them. A listener is identified by an int and a
 * property value by its string; a child dispatcher is represented by its
 * list of listeners, which is all of it that is ever used.
 */
module ChangeEvents {
  import opened JavaBase

  /** A PropertyChangeEvent: the property's name (possibly null) and its old and new values. */
  datatype ChangeEvent = ChangeEvent(propertyName: Option<string>, oldValue: Option<string>, newValue: Option<string>)

  /** No event is delivered when the old and new values are both non-null and equal. */
  predicate Suppressed(e: ChangeEvent)
  {
    e.oldValue.Some? && e.newValue.Some? && e.oldValue.value == e.newValue.value
  }

  /** The listeners registered for one property, none when it has no child dispatcher. */
  function ChildListeners(children: map<string, seq<int>>, name: string): seq<int>
  {
    if name in children then children[name] else []
  }

  /**
   * The listeners an event reaches, in order: none for a suppressed event,
   * else the generic listeners, then those of the event's named property.
   */
  function Delivered(listeners: seq<int>, children: map<string, seq<int>>, e: ChangeEvent): seq<int>
  {
    if Suppressed(e) then []
    else listeners + (if e.propertyName.Some? then ChildListeners(children, e.propertyName.value) else [])
  }

  /** The NullPointerException of a null source object. */
  datatype DispatcherError = NullSource

  class ChangeEventDispatcher {
    /** The generic listeners, in order of registration; a listener may be there twice. */
    var listeners: seq<int>
    /** The listeners of each named property's child dispatcher. */
    var children: map<string, seq<int>>
    /** The source object of every event. */
    const source: int

    constructor(sourceObject: int)
      ensures listeners == [] && children == map[] && source == sourceObject
    {
      listeners := [];
      children := map[];
      source := sourceObject;
    }

    /** The constructor: a null source object throws. */
    static method Create(sourceObject: Option<int>) returns (r: Result<ChangeEventDispatcher, DispatcherError>)
      ensures sourceObject.None? <==> r.Err?
      ensures r.Ok? ==> fresh(r.value) && r.value.source == sourceObject.value
      ensures r.Ok? ==> r.value.listeners == [] && r.value.children == map[]
    {
      if sourceObject.None? {
        return Err(NullSource);
      }
      var d := new ChangeEventDispatcher(sourceObject.value);
      return Ok(d);
    }

    /** addPropertyChangeListener(listener): appended to the generic listeners. */
    method AddPropertyChangeListener(listener: int)
      modifies this
      ensures listeners == old(listeners) + [listener] && children == old(children)
    {
      listeners := listeners + [listener];
    }

    /**
     * addPropertyChangeListener(propertyName, listener): appended to that
     * property's listeners, creating its child dispatcher when needed.
     */
    method AddNamedPropertyChangeListener(propertyName: string, listener: int)
      modifies this
      ensures children == old(children)[propertyName := ChildListeners(old(children), propertyName) + [listener]]
      ensures listeners == old(listeners)
    {
      var child: seq<int>;
      if propertyName !in children {
        child := [];
        children := children[propertyName := child];
      }
      child := children[propertyName];
      children := children[propertyName := child + [listener]];
    }

    /** removePropertyChangeListener(listener): its first occurrence among the generic listeners goes. */
    method RemovePropertyChangeListener(listener: int)
      modifies this
      ensures listeners == RemoveFirst(old(listeners), listener) && children == old(children)
    {
      listeners := RemoveFirst(listeners, listener);
    }

    /**
     * removePropertyChangeListener(propertyName, listener): its first
     * occurrence among the property's listeners goes; a child dispatcher
     * left empty stays.
     */
    method RemoveNamedPropertyChangeListener(propertyName: string, listener: int)
      modifies this
      ensures propertyName in old(children) ==>
        children == old(children)[propertyName := RemoveFirst(old(children)[propertyName], listener)]
      ensures propertyName !in old(children) ==> children == old(children)
      ensures listeners == old(listeners)
    {
      if propertyName in children {
        var child := children[propertyName];
        children := children[propertyName := RemoveFirst(child, listener)];
      }
    }

    /**
     * firePropertyChange(evt): the listeners notified, in order; the
     * generic ones first, then, when the event names a property, that
     * property's child dispatcher fires the same event to its own.
     */
    method FirePropertyChange(evt: ChangeEvent) returns (notified: seq<int>)
      ensures notified == Delivered(listeners, children, evt)
    {
      notified := [];
      if Suppressed(evt) {
        return;
      }
      var changeListeners := listeners;
      var changeChildren := children;
      var i := 0;
      while i < |changeListeners|
        invariant 0 <= i <= |changeListeners| && notified == changeListeners[..i]
      {
        notified := notified + [changeListeners[i]];
        i := i + 1;
      }
      assert notified == listeners;
      if evt.propertyName.Some? && evt.propertyName.value in changeChildren {
        var child := changeChildren[evt.propertyName.value];
        var j := 0;
        while j < |child|
          invariant 0 <= j <= |child| && notified == listeners + child[..j]
        {
          notified := notified + [child[j]];
          j := j + 1;
        }
        assert child[..j] == child;
      }
    }

    /** firePropertyChange(propertyName, oldValue, newValue): a suppressed change creates no event. */
    method FireChange(propertyName: Option<string>, oldValue: Option<string>, newValue: Option<string>)
      returns (notified: seq<int>)
      ensures notified == Delivered(listeners, children, ChangeEvent(propertyName, oldValue, newValue))
    {
      notified := [];
      if oldValue.None? || newValue.None? || oldValue.value != newValue.value {
        notified := FirePropertyChange(ChangeEvent(propertyName, oldValue, newValue));
      }
    }

    /** hasPropertyChangeListeners(propertyName). */
    predicate HasPropertyChangeListeners(propertyName: string)
      reads this
    {
      if listeners != [] then true
      else if propertyName in children then children[propertyName] != []
      else false
    }
  }

  /**
   * A dispatcher has listeners for a property exactly when a real change
   * of that property reaches someone.
   */
  lemma {:induction false} HasListenersIffDelivered(d: ChangeEventDispatcher, name: string, oldValue: Option<string>, newValue: Option<string>)
    requires !Suppressed(ChangeEvent(Some(name), oldValue, newValue))
    ensures d.HasPropertyChangeListeners(name) <==>
      Delivered(d.listeners, d.children, ChangeEvent(Some(name), oldValue, newValue)) != []
  {
    var r := Delivered(d.listeners, d.children, ChangeEvent(Some(name), oldValue, newValue));
    assert r == d.listeners + ChildListeners(d.children, name);
  }

  /**
   * No event reaches anyone when its old and new values are both non-null
   * and equal; otherwise every generic listener is notified, in order,
   * and then exactly the listeners of the named property.
   */
  lemma {:induction false} DeliveredOrder(listeners: seq<int>, children: map<string, seq<int>>, e: ChangeEvent)
    ensures Suppressed(e) ==> Delivered(listeners, children, e) == []
    ensures !Suppressed(e) ==>
      |Delivered(listeners, children, e)| >= |listeners| && Delivered(listeners, children, e)[..|listeners|] == listeners
    ensures !Suppressed(e) && e.propertyName.Some? ==>
      Delivered(listeners, children, e)[|listeners|..] == ChildListeners(children, e.propertyName.value)
  {
  }

  /** An event without a property name reaches only the generic listeners. */
  lemma {:induction false} UnnamedReachesGeneric(listeners: seq<int>, children: map<string, seq<int>>, e: ChangeEvent)
    requires e.propertyName.None? && !Suppressed(e)
    ensures Delivered(listeners, children, e) == listeners
  {
  }

  /** Registering a listener for a property makes a real change of it reach that listener, last. */
  lemma {:induction false} AddedListenerNotified(listeners: seq<int>, children: map<string, seq<int>>, name: string, listener: int, e: ChangeEvent)
    requires e.propertyName == Some(name) && !Suppressed(e)
    ensures var r := Delivered(listeners, children[name := ChildListeners(children, name) + [listener]], e);
      r != [] && r[|r| - 1] == listener
  {
  }
}
