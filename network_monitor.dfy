/** The network-monitor bookkeeping of the IP adapter: the bounded list of
    known interface indices (g_ip_interface_list) and the list of
    interface-event callbacks (oc_network_interface_cb_list). */
module NetworkMonitor {
  import opened Common
  import opened Endpoints

  predicate NoDuplicates<T(==)>(s: seq<T>) {
    forall i, j :: 0 <= i < j < |s| ==> s[i] != s[j]
  }

  /** The sequence without its first occurrence of `x` (oc_list_remove of the
      item a head-to-tail search found). */
  function RemoveFirst(s: seq<int>, x: int): (r: seq<int>)
    ensures x !in s ==> r == s
    ensures x in s ==> |r| == |s| - 1
  {
    if s == [] then []
    else if s[0] == x then s[1..]
    else [s[0]] + RemoveFirst(s[1..], x)
  }

  /** One occurrence of `x` goes, everything else stays. */
  lemma {:induction false} RemoveFirstContents(s: seq<int>, x: int)
    ensures multiset(RemoveFirst(s, x)) == multiset(s) - multiset{x}
    ensures forall y :: y != x ==> (y in RemoveFirst(s, x) <==> y in s)
  {
    if s != [] {
      assert s == [s[0]] + s[1..];
      if s[0] != x {
        RemoveFirstContents(s[1..], x);
      }
    }
  }

  /** Removing from a duplicate-free list keeps it duplicate-free and removes `x` entirely. */
  lemma {:induction false} RemoveFirstNoDuplicates(s: seq<int>, x: int)
    requires NoDuplicates(s)
    ensures NoDuplicates(RemoveFirst(s, x))
    ensures x !in RemoveFirst(s, x)
  {
    if s != [] && s[0] != x {
      assert NoDuplicates(s[1..]) by {
        forall i, j | 0 <= i < j < |s[1..]| ensures s[1..][i] != s[1..][j] {
          assert s[1..][i] == s[i + 1] && s[1..][j] == s[j + 1];
        }
      }
      RemoveFirstNoDuplicates(s[1..], x);
      var rest := RemoveFirst(s[1..], x);
      assert s[0] !in rest by {
        assert s[0] !in s[1..];
        RemoveFirstContents(s[1..], x);
      }
    } else if s != [] {
      assert x !in s[1..];
      assert NoDuplicates(s[1..]) by {
        forall i, j | 0 <= i < j < |s[1..]| ensures s[1..][i] != s[1..][j] {
          assert s[1..][i] == s[i + 1] && s[1..][j] == s[j + 1];
        }
      }
    }
  }

  /** add_ip_interface on a list value: append when absent and the pool has room. */
  function AddInterface(s: seq<int>, x: int, capacity: nat): (r: seq<int>)
    ensures |s| <= |r| <= |s| + 1 && r[..|s|] == s
    ensures x in r <==> x in s || |s| < capacity
    ensures forall y :: y in r ==> y in s || y == x
  {
    if x in s || |s| >= capacity then s else s + [x]
  }

  /** The up, non-loopback entries of a getifaddrs list, in order. */
  function UpIndices(ifs: seq<IfAddrEntry>): (r: seq<int>)
    ensures forall x :: x in r <==> exists e :: e in ifs && e.up && !e.loopback && e.ifIndex == x
  {
    if ifs == [] then []
    else
      var rest := UpIndices(ifs[1..]);
      assert forall e :: e in ifs <==> e == ifs[0] || e in ifs[1..];
      if ifs[0].up && !ifs[0].loopback then [ifs[0].ifIndex] + rest else rest
  }

  /** Adding a sequence of indices one by one. */
  function AddAll(s: seq<int>, xs: seq<int>, capacity: nat): seq<int>
    decreases |xs|
  {
    if xs == [] then s else AddAll(AddInterface(s, xs[0], capacity), xs[1..], capacity)
  }

  /** Repeated adds keep the list bounded and duplicate-free, keep what was
      there, and hold every added index unless the pool filled up. */
  lemma {:induction false} AddAllProperties(s: seq<int>, xs: seq<int>, capacity: nat)
    requires |s| <= capacity && NoDuplicates(s)
    ensures var r := AddAll(s, xs, capacity);
      |r| <= capacity && NoDuplicates(r) && |s| <= |r| && r[..|s|] == s
      && (forall x :: x in xs ==> x in r || |r| == capacity)
      && (forall x :: x in r ==> x in s || x in xs)
    decreases |xs|
  {
    if xs != [] {
      var s1 := AddInterface(s, xs[0], capacity);
      assert NoDuplicates(s1);
      AddAllProperties(s1, xs[1..], capacity);
      var r := AddAll(s1, xs[1..], capacity);
      assert r[..|s|] == r[..|s1|][..|s|];
      assert forall x :: x in xs ==> x == xs[0] || x in xs[1..];
      if xs[0] in s1 {
        assert xs[0] in r by {
          var k :| 0 <= k < |s1| && s1[k] == xs[0];
          assert r[..|s1|][k] == xs[0];
        }
      }
      forall x | x in s1 ensures x in r {
        var k :| 0 <= k < |s1| && s1[k] == x;
        assert r[..|s1|][k] == x;
      }
    }
  }

  /** Interface up/down events, as passed to the callbacks. */
  datatype InterfaceEvent = InterfaceUp | InterfaceDown

  /** The known-interfaces list.  Its items come from a pool of `capacity`
      entries (OC_MAX_IP_INTERFACES) that nothing else uses. */
  class InterfaceList {
    var items: seq<int>
    const capacity: nat

    ghost predicate Valid()
      reads this
    {
      |items| <= capacity && NoDuplicates(items)
    }

    constructor (capacity: nat)
      ensures Valid() && items == [] && this.capacity == capacity
    {
      items := [];
      this.capacity := capacity;
    }

    /** get_ip_interface: the position of the first item equal to `target`. */
    method Find(target: int) returns (r: Option<nat>)
      ensures r.Some? <==> target in items
      ensures r.Some? ==> r.value < |items| && items[r.value] == target && target !in items[..r.value]
    {
      var i := 0;
      while i < |items| && items[i] != target
        invariant 0 <= i <= |items|
        invariant target !in items[..i]
      {
        assert items[..i + 1] == items[..i] + [items[i]];
        i := i + 1;
      }
      if i < |items| {
        return Some(i);
      }
      assert items[..i] == items;
      return None;
    }

    /** add_ip_interface: false, list unchanged, when `target` is present or
        the pool is empty; otherwise appended at the tail and true. */
    method Add(target: int) returns (added: bool)
      requires Valid()
      modifies this
      ensures Valid()
      ensures added <==> target !in old(items) && |old(items)| < capacity
      ensures items == AddInterface(old(items), target, capacity)
      ensures items == if added then old(items) + [target] else old(items)
    {
      var found := Find(target);
      if found.Some? {
        return false;
      }
      if |items| >= capacity {
        return false;
      }
      items := items + [target];
      return true;
    }

    /** remove_ip_interface: true iff `target` was present; afterwards it is absent. */
    method Remove(target: int) returns (removed: bool)
      requires Valid()
      modifies this
      ensures Valid()
      ensures removed <==> target in old(items)
      ensures target !in items
      ensures items == RemoveFirst(old(items), target)
    {
      RemoveFirstNoDuplicates(items, target);
      var found := Find(target);
      if found.None? {
        return false;
      }
      var k := found.value;
      assert items == items[..k] + [target] + items[k + 1..];
      RemoveAtFirst(items, k, target);
      items := items[..k] + items[k + 1..];
      return true;
    }

    /** remove_all_ip_interface: unlinks the items from the head until none is left. */
    method RemoveAll()
      requires Valid()
      modifies this
      ensures Valid() && items == []
    {
      while items != []
        invariant Valid()
        decreases |items|
      {
        assert NoDuplicates(items[1..]) by {
          forall i, j | 0 <= i < j < |items[1..]| ensures items[1..][i] != items[1..][j] {
            assert items[1..][i] == items[i + 1] && items[1..][j] == items[j + 1];
          }
        }
        items := items[1..];
      }
    }

    /** check_new_ip_interfaces: `ifs` is the getifaddrs result (None on
        failure, giving false); every up non-loopback entry is added. */
    method CheckNewIpInterfaces(ifs: Option<seq<IfAddrEntry>>) returns (ok: bool)
      requires Valid()
      modifies this
      ensures Valid()
      ensures ok <==> ifs.Some?
      ensures items == if ifs.None? then old(items) else AddAll(old(items), UpIndices(ifs.value), capacity)
    {
      if ifs.None? {
        return false;
      }
      var list := ifs.value;
      ghost var start := items;
      var i := 0;
      while i < |list|
        invariant 0 <= i <= |list|
        invariant Valid()
        invariant AddAll(start, UpIndices(list), capacity) == AddAll(items, UpIndices(list[i..]), capacity)
      {
        assert list[i..][1..] == list[i + 1..];
        var e := list[i];
        if e.up && !e.loopback {
          var _ := Add(e.ifIndex);
        }
        i := i + 1;
      }
      return true;
    }
  }

  /** Removing the item at the first position holding `x`. */
  lemma {:induction false} RemoveAtFirst(s: seq<int>, k: nat, x: int)
    requires k < |s| && s[k] == x && x !in s[..k]
    ensures RemoveFirst(s, x) == s[..k] + s[k + 1..]
    decreases k
  {
    if k > 0 {
      assert s[0] != x by { assert s[..k][0] == s[0]; }
      assert s[1..][..k - 1] == s[..k][1..];
      RemoveAtFirst(s[1..], k - 1, x);
      assert s[..k] + s[k + 1..] == [s[0]] + (s[1..][..k - 1] + s[1..][k..]);
    }
  }

  /** A registered callback, identified by its function pointer. */
  type Handler = nat

  /** One invocation of a callback. */
  datatype Call = Call(handler: Handler, event: InterfaceEvent)

  /** The interface-event callback list, from a pool of `capacity` entries
      (OC_MAX_NETWORK_INTERFACE_CBS).  A handler may be registered twice. */
  class CallbackList {
    var handlers: seq<Handler>
    const capacity: nat

    ghost predicate Valid()
      reads this
    {
      |handlers| <= capacity
    }

    constructor (capacity: nat)
      ensures Valid() && handlers == [] && this.capacity == capacity
    {
      handlers := [];
      this.capacity := capacity;
    }

    /** oc_add_network_interface_event_callback: -1 for a null handler or a
        full pool, otherwise appended and 0. */
    method Add(cb: Option<Handler>) returns (status: int)
      requires Valid()
      modifies this
      ensures Valid()
      ensures status == 0 || status == -1
      ensures status == 0 <==> cb.Some? && |old(handlers)| < capacity
      ensures handlers == if status == 0 then old(handlers) + [cb.value] else old(handlers)
    {
      if cb.None? || |handlers| >= capacity {
        return -1;
      }
      handlers := handlers + [cb.value];
      return 0;
    }

    /** oc_remove_network_interface_event_callback: -1 for a null or
        unregistered handler, otherwise its first registration is removed and 0. */
    method Remove(cb: Option<Handler>) returns (status: int)
      requires Valid()
      modifies this
      ensures Valid()
      ensures status == 0 || status == -1
      ensures status == 0 <==> cb.Some? && cb.value in old(handlers)
      ensures handlers == if status == 0 then RemoveFirst(old(handlers), cb.value) else old(handlers)
    {
      if cb.None? {
        return -1;
      }
      var i := 0;
      while i < |handlers| && handlers[i] != cb.value
        invariant 0 <= i <= |handlers|
        invariant cb.value !in handlers[..i]
      {
        assert handlers[..i + 1] == handlers[..i] + [handlers[i]];
        i := i + 1;
      }
      if i == |handlers| {
        assert handlers[..i] == handlers;
        return -1;
      }
      RemoveAtFirst(handlers, i, cb.value);
      handlers := handlers[..i] + handlers[i + 1..];
      return 0;
    }

    /** remove_all_network_interface_cbs. */
    method RemoveAll()
      requires Valid()
      modifies this
      ensures Valid() && handlers == []
    {
      while handlers != []
        invariant Valid()
        decreases |handlers|
      {
        handlers := handlers[1..];
      }
    }

    /** handle_network_interface_event_callback: every registered handler is
        called once with `event`, head to tail. */
    method Dispatch(event: InterfaceEvent) returns (calls: seq<Call>)
      ensures |calls| == |handlers|
      ensures forall k :: 0 <= k < |calls| ==> calls[k] == Call(handlers[k], event)
    {
      calls := [];
      var i := 0;
      while i < |handlers|
        invariant 0 <= i <= |handlers|
        invariant |calls| == i
        invariant forall k :: 0 <= k < i ==> calls[k] == Call(handlers[k], event)
      {
        calls := calls + [Call(handlers[i], event)];
        i := i + 1;
      }
    }
  }
}
