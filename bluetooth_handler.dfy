/** Discovery bookkeeping of the Bluetooth practice app's `BluetoothHandler`.

    The handler publishes three pieces of state: the discovery state, the list of
    devices found during discovery (deduplicated by hardware address, in first-seen
    order) and the list of bonded devices (replaced wholesale on each refresh).
    Broadcasts from the platform drive the first two; an explicit refresh drives the
    third. Starting and stopping discovery only forward a request to the adapter.

    The pure part of the module (`Receive`, `Run` and the lemmas about them) is the
    specification; the class `BluetoothHandler` is the imperative model of the Kotlin
    class, and each of its methods is proved against that specification. */
module Bluetooth {

  datatype Option<+T> = None | Some(value: T)

  /** A remote device as the handler sees it: its hardware address, which is the key
      the handler deduplicates on, and an optional display name. */
  datatype Device = Device(address: string, name: Option<string>)

  /** The three discovery states the handler publishes. */
  datatype BluetoothDiscoveryState = NotDiscoveryYet | OnDiscovery | DiscoveryFinish

  /** The broadcast actions the receiver reacts to (the platform's constant strings). */
  const ActionDiscoveryStarted: string := "android.bluetooth.adapter.action.DISCOVERY_STARTED"
  const ActionDiscoveryFinished: string := "android.bluetooth.adapter.action.DISCOVERY_FINISHED"
  const ActionFound: string := "android.bluetooth.device.action.FOUND"

  /** A broadcast as it reaches the receiver: its action (possibly absent) and the
      device extra, already extracted (absent when missing or not a device). */
  datatype Intent = Intent(action: Option<string>, deviceExtra: Option<Device>)

  /** Everything the handler publishes. */
  datatype HandlerState = HandlerState(
    discoveryState: BluetoothDiscoveryState,
    discoveredDevice: seq<Device>,
    bondedDevice: seq<Device>)

  /** Some entry of `devices` has the given address. */
  predicate HasAddress(devices: seq<Device>, address: string)
  {
    exists i :: 0 <= i < |devices| && devices[i].address == address
  }

  /** No two entries of `devices` share an address. */
  predicate DistinctAddresses(devices: seq<Device>)
  {
    forall i, j :: 0 <= i < j < |devices| ==> devices[i].address != devices[j].address
  }

  /** The action the receiver dispatches on; none for a null broadcast. */
  function ActionOf(intent: Option<Intent>): Option<string>
  {
    if intent.Some? then intent.value.action else None
  }

  /** The discovery state a broadcast announces: "started" and "finished" do, any
      other broadcast does not. */
  function Announced(intent: Option<Intent>): Option<BluetoothDiscoveryState>
  {
    if ActionOf(intent) == Some(ActionDiscoveryStarted) then Some(OnDiscovery)
    else if ActionOf(intent) == Some(ActionDiscoveryFinished) then Some(DiscoveryFinish)
    else None
  }

  /** The device a "found" broadcast carries; none for any other broadcast or for a
      "found" broadcast without a device. */
  function FoundDevice(intent: Option<Intent>): Option<Device>
  {
    if ActionOf(intent) == Some(ActionFound) then intent.value.deviceExtra else None
  }

  /** The discovered list after `device` was reported: appended when its address is
      new, otherwise the list as it was. */
  function AddIfNew(devices: seq<Device>, device: Device): (r: seq<Device>)
    ensures |devices| <= |r| <= |devices| + 1 && r[..|devices|] == devices
    ensures |r| == |devices| + 1 ==> r[|devices|] == device
    ensures HasAddress(devices, device.address) ==> r == devices
    ensures forall a :: HasAddress(r, a) <==> HasAddress(devices, a) || a == device.address
    ensures DistinctAddresses(devices) ==> DistinctAddresses(r)
  {
    if HasAddress(devices, device.address) then devices
    else
      var r := devices + [device];
      assert r[|devices|].address == device.address;
      assert forall a :: HasAddress(r, a) ==> HasAddress(devices, a) || a == device.address by {
        forall a | HasAddress(r, a) ensures HasAddress(devices, a) || a == device.address {
          var i :| 0 <= i < |r| && r[i].address == a;
          if i < |devices| { assert devices[i].address == a; }
        }
      }
      assert forall a :: HasAddress(devices, a) ==> HasAddress(r, a) by {
        forall a | HasAddress(devices, a) ensures HasAddress(r, a) {
          var i :| 0 <= i < |devices| && devices[i].address == a;
          assert r[i].address == a;
        }
      }
      r
  }

  /** The receiver's reaction to one broadcast. */
  function Receive(st: HandlerState, intent: Option<Intent>): (r: HandlerState)
    ensures r.bondedDevice == st.bondedDevice
    ensures r.discoveryState == st.discoveryState || Announced(intent) == Some(r.discoveryState)
    ensures Announced(intent).Some? ==>
      r.discoveryState == Announced(intent).value && r.discoveredDevice == st.discoveredDevice
    ensures Announced(intent).None? ==> r.discoveryState == st.discoveryState
    ensures FoundDevice(intent).None? ==> r.discoveredDevice == st.discoveredDevice
    ensures FoundDevice(intent).Some? ==>
      r.discoveredDevice == AddIfNew(st.discoveredDevice, FoundDevice(intent).value)
    ensures DistinctAddresses(st.discoveredDevice) ==> DistinctAddresses(r.discoveredDevice)
  {
    match Announced(intent)
    case Some(s) => st.(discoveryState := s)
    case None =>
      match FoundDevice(intent)
      case Some(d) => st.(discoveredDevice := AddIfNew(st.discoveredDevice, d))
      case None => st
  }

  /** The handler's state after the broadcasts `intents`, delivered in order, starting
      from `st`. */
  function Run(st: HandlerState, intents: seq<Option<Intent>>): HandlerState
    decreases |intents|
  {
    if intents == [] then st
    else Receive(Run(st, intents[..|intents| - 1]), intents[|intents| - 1])
  }

  /** The devices carried by the "found" broadcasts of `intents`, in order. */
  function FoundDevices(intents: seq<Option<Intent>>): seq<Device>
    decreases |intents|
  {
    if intents == [] then []
    else
      var last := FoundDevice(intents[|intents| - 1]);
      FoundDevices(intents[..|intents| - 1]) + (if last.Some? then [last.value] else [])
  }

  /** Index of the first entry of `devices` with the given address, or `|devices|`
      when there is none. */
  function FirstIndex(devices: seq<Device>, address: string): (i: nat)
    ensures i <= |devices|
    ensures i < |devices| <==> HasAddress(devices, address)
    ensures i < |devices| ==> devices[i].address == address
    ensures forall j :: 0 <= j < i ==> devices[j].address != address
    decreases |devices|
  {
    if devices == [] then 0
    else if devices[0].address == address then 0
    else
      var k := FirstIndex(devices[1..], address);
      assert forall j :: 0 < j <= k ==> devices[j] == devices[1..][j - 1];
      assert HasAddress(devices[1..], address) ==> HasAddress(devices, address) by {
        if HasAddress(devices[1..], address) {
          var j :| 0 <= j < |devices[1..]| && devices[1..][j].address == address;
          assert devices[j + 1].address == address;
        }
      }
      assert HasAddress(devices, address) ==> HasAddress(devices[1..], address) by {
        if HasAddress(devices, address) {
          var j :| 0 <= j < |devices| && devices[j].address == address;
          assert devices[1..][j - 1].address == address;
        }
      }
      1 + k
  }

  /** `r` lists the distinct addresses of `ds` in the order they first appear there,
      each with the device that first reported it. */
  ghost predicate FirstSeenOrder(r: seq<Device>, ds: seq<Device>)
  {
    && DistinctAddresses(r)
    && (forall a :: HasAddress(r, a) <==> HasAddress(ds, a))
    && (forall k :: 0 <= k < |r| ==>
          FirstIndex(ds, r[k].address) < |ds| && r[k] == ds[FirstIndex(ds, r[k].address)])
    && (forall k, l :: 0 <= k < l < |r| ==> FirstIndex(ds, r[k].address) < FirstIndex(ds, r[l].address))
  }

  // ---------------------------------------------------------------------------
  // Properties of the broadcast handling

  /** Delivering the same broadcast twice has the effect of delivering it once. */
  lemma {:induction false} ReceiveIdempotent(st: HandlerState, intent: Option<Intent>)
    ensures Receive(Receive(st, intent), intent) == Receive(st, intent)
  {
  }

  /** No sequence of broadcasts introduces two discovered entries with one address. */
  lemma {:induction false} RunKeepsDistinctAddresses(st: HandlerState, intents: seq<Option<Intent>>)
    requires DistinctAddresses(st.discoveredDevice)
    ensures DistinctAddresses(Run(st, intents).discoveredDevice)
    decreases |intents|
  {
    if intents != [] {
      RunKeepsDistinctAddresses(st, intents[..|intents| - 1]);
    }
  }

  /** Broadcasts only ever append to the discovered list, never touch the bonded list,
      and the discovered list grows by at most one entry per broadcast. */
  lemma {:induction false} RunOnlyAppends(st: HandlerState, intents: seq<Option<Intent>>)
    ensures Run(st, intents).bondedDevice == st.bondedDevice
    ensures |st.discoveredDevice| <= |Run(st, intents).discoveredDevice| <= |st.discoveredDevice| + |intents|
    ensures Run(st, intents).discoveredDevice[..|st.discoveredDevice|] == st.discoveredDevice
    decreases |intents|
  {
    if intents != [] {
      var pre := intents[..|intents| - 1];
      RunOnlyAppends(st, pre);
      var before := Run(st, pre).discoveredDevice;
      var after := Run(st, intents).discoveredDevice;
      assert after[..|before|] == before;
      assert after[..|st.discoveredDevice|] == before[..|st.discoveredDevice|];
    }
  }

  /** Without "started" or "finished" broadcasts the discovery state stays as it was. */
  lemma {:induction false} RunStateQuiet(st: HandlerState, intents: seq<Option<Intent>>)
    requires forall j :: 0 <= j < |intents| ==> Announced(intents[j]).None?
    ensures Run(st, intents).discoveryState == st.discoveryState
    decreases |intents|
  {
    if intents != [] {
      var n := |intents| - 1;
      assert forall j :: 0 <= j < n ==> intents[..n][j] == intents[j];
      RunStateQuiet(st, intents[..n]);
    }
  }

  /** The discovery state is the one announced by the last "started" or "finished"
      broadcast, whatever the state was before it. */
  lemma {:induction false} RunStateLast(st: HandlerState, intents: seq<Option<Intent>>, i: nat)
    requires i < |intents| && Announced(intents[i]).Some?
    requires forall j :: i < j < |intents| ==> Announced(intents[j]).None?
    ensures Run(st, intents).discoveryState == Announced(intents[i]).value
    decreases |intents|
  {
    var n := |intents| - 1;
    if i < n {
      assert forall j :: 0 <= j < n ==> intents[..n][j] == intents[j];
      RunStateLast(st, intents[..n], i);
    }
  }

  lemma {:induction false} HasAddressAppend(ds: seq<Device>, d: Device, a: string)
    ensures HasAddress(ds + [d], a) <==> HasAddress(ds, a) || a == d.address
  {
    var ds' := ds + [d];
    assert ds'[|ds|] == d;
    if HasAddress(ds, a) {
      var i :| 0 <= i < |ds| && ds[i].address == a;
      assert ds'[i] == ds[i];
    }
    if HasAddress(ds', a) {
      var i :| 0 <= i < |ds'| && ds'[i].address == a;
      if i < |ds| { assert ds[i] == ds'[i]; }
    }
  }

  lemma {:induction false} FirstIndexAppend(ds: seq<Device>, d: Device, a: string)
    ensures HasAddress(ds, a) ==> FirstIndex(ds + [d], a) == FirstIndex(ds, a)
    ensures !HasAddress(ds, a) && a == d.address ==> FirstIndex(ds + [d], a) == |ds|
  {
    var ds' := ds + [d];
    var i, i' := FirstIndex(ds, a), FirstIndex(ds', a);
    HasAddressAppend(ds, d, a);
    assert forall j :: 0 <= j < |ds| ==> ds'[j] == ds[j];
    if HasAddress(ds, a) {
      assert ds'[i].address == a;
    } else if a == d.address {
      assert ds'[|ds|].address == a;
    }
  }

  /** A list without repeated addresses is in first-seen order for itself. */
  lemma {:induction false} DistinctIsFirstSeenOrder(ds: seq<Device>)
    requires DistinctAddresses(ds)
    ensures FirstSeenOrder(ds, ds)
  {
    assert forall k :: 0 <= k < |ds| ==> HasAddress(ds, ds[k].address);
  }

  /** Starting from a list without repeated addresses, the discovered list after any
      broadcasts holds, in first-seen order, one entry per distinct address among the
      initial entries followed by the devices the "found" broadcasts carried. */
  lemma {:induction false} RunFirstSeenOrder(st: HandlerState, intents: seq<Option<Intent>>)
    requires DistinctAddresses(st.discoveredDevice)
    ensures FirstSeenOrder(Run(st, intents).discoveredDevice, st.discoveredDevice + FoundDevices(intents))
    decreases |intents|
  {
    if intents == [] {
      assert st.discoveredDevice + FoundDevices(intents) == st.discoveredDevice;
      DistinctIsFirstSeenOrder(st.discoveredDevice);
    } else {
      var n := |intents| - 1;
      var pre := intents[..n];
      RunFirstSeenOrder(st, pre);
      var r := Run(st, pre).discoveredDevice;
      var ds := st.discoveredDevice + FoundDevices(pre);
      var r' := Run(st, intents).discoveredDevice;
      var found := FoundDevice(intents[n]);
      if found.None? {
        assert FoundDevices(intents) == FoundDevices(pre) + [];
        assert st.discoveredDevice + FoundDevices(intents) == ds;
      } else {
        var d := found.value;
        assert FoundDevices(intents) == FoundDevices(pre) + [d];
        assert st.discoveredDevice + FoundDevices(intents) == ds + [d];
        assert r' == AddIfNew(r, d);
        FoundPreservesFirstSeenOrder(r, ds, d);
      }
    }
  }

  lemma {:induction false} FoundPreservesFirstSeenOrder(r: seq<Device>, ds: seq<Device>, d: Device)
    requires FirstSeenOrder(r, ds)
    ensures FirstSeenOrder(AddIfNew(r, d), ds + [d])
  {
    forall a ensures HasAddress(ds + [d], a) <==> HasAddress(ds, a) || a == d.address {
      HasAddressAppend(ds, d, a);
    }
    forall k | 0 <= k < |r| ensures FirstIndex(ds + [d], r[k].address) == FirstIndex(ds, r[k].address) {
      FirstIndexAppend(ds, d, r[k].address);
    }
    if !HasAddress(r, d.address) {
      FirstIndexAppend(ds, d, d.address);
      FoundNewKeepsFirstSeenOrder(r, ds, d);
    }
  }

  lemma {:induction false} FoundNewKeepsFirstSeenOrder(r: seq<Device>, ds: seq<Device>, d: Device)
    requires FirstSeenOrder(r, ds) && !HasAddress(r, d.address)
    requires forall a :: HasAddress(ds + [d], a) <==> HasAddress(ds, a) || a == d.address
    requires forall k :: 0 <= k < |r| ==> FirstIndex(ds + [d], r[k].address) == FirstIndex(ds, r[k].address)
    requires FirstIndex(ds + [d], d.address) == |ds|
    ensures FirstSeenOrder(r + [d], ds + [d])
  {
    assert r + [d] == AddIfNew(r, d);
    forall a ensures HasAddress(r + [d], a) <==> HasAddress(ds + [d], a) {
      HasAddressAppend(r, d, a);
    }
    FoundNewEntries(r, ds, d);
    FoundNewOrder(r, ds, d);
  }

  lemma {:induction false} FoundNewEntries(r: seq<Device>, ds: seq<Device>, d: Device)
    requires forall k :: 0 <= k < |r| ==>
      FirstIndex(ds, r[k].address) < |ds| && r[k] == ds[FirstIndex(ds, r[k].address)]
    requires forall k :: 0 <= k < |r| ==> FirstIndex(ds + [d], r[k].address) == FirstIndex(ds, r[k].address)
    requires FirstIndex(ds + [d], d.address) == |ds|
    ensures forall k :: 0 <= k < |r + [d]| ==>
      FirstIndex(ds + [d], (r + [d])[k].address) < |ds + [d]| &&
      (r + [d])[k] == (ds + [d])[FirstIndex(ds + [d], (r + [d])[k].address)]
  {
    var r', ds' := r + [d], ds + [d];
    forall k | 0 <= k < |r'|
      ensures FirstIndex(ds', r'[k].address) < |ds'| && r'[k] == ds'[FirstIndex(ds', r'[k].address)]
    {
      if k < |r| {
        assert r'[k] == r[k];
        assert ds'[FirstIndex(ds, r[k].address)] == ds[FirstIndex(ds, r[k].address)];
      } else {
        assert r'[k] == d && ds'[|ds|] == d;
      }
    }
  }

  lemma {:induction false} FoundNewOrder(r: seq<Device>, ds: seq<Device>, d: Device)
    requires forall k, l :: 0 <= k < l < |r| ==> FirstIndex(ds, r[k].address) < FirstIndex(ds, r[l].address)
    requires forall k :: 0 <= k < |r| ==> FirstIndex(ds, r[k].address) < |ds|
    requires forall k :: 0 <= k < |r| ==> FirstIndex(ds + [d], r[k].address) == FirstIndex(ds, r[k].address)
    requires FirstIndex(ds + [d], d.address) == |ds|
    ensures forall k, l :: 0 <= k < l < |r + [d]| ==>
      FirstIndex(ds + [d], (r + [d])[k].address) < FirstIndex(ds + [d], (r + [d])[l].address)
  {
    var r' := r + [d];
    assert forall k :: 0 <= k < |r| ==> r'[k] == r[k];
    assert r'[|r|] == d;
  }

  /** Among two lists that agree before position `k`, where the second list's addresses
      all occur in the first, the first list's entry at `k` was reported no later than the
      second's. */
  lemma {:induction false} FirstSeenNoEarlier(r1: seq<Device>, r2: seq<Device>, ds: seq<Device>, k: nat)
    requires DistinctAddresses(r2)
    requires forall a :: HasAddress(r2, a) ==> HasAddress(r1, a)
    requires forall i, j :: 0 <= i < j < |r1| ==> FirstIndex(ds, r1[i].address) < FirstIndex(ds, r1[j].address)
    requires k < |r1| && k < |r2| && forall j :: 0 <= j < k ==> r1[j] == r2[j]
    ensures FirstIndex(ds, r1[k].address) <= FirstIndex(ds, r2[k].address)
  {
    var a := r2[k].address;
    assert HasAddress(r2, a);
    var m :| 0 <= m < |r1| && r1[m].address == a;
    assert k <= m;
  }

  /** A list in first-seen order is determined by the reports: at most one list is in
      first-seen order for any `ds`. */
  lemma {:induction false} FirstSeenOrderUnique(r1: seq<Device>, r2: seq<Device>, ds: seq<Device>)
    requires FirstSeenOrder(r1, ds) && FirstSeenOrder(r2, ds)
    ensures r1 == r2
  {
    FirstSeenCommonPrefix(r1, r2, ds, if |r1| <= |r2| then |r1| else |r2|);
    if |r1| <= |r2| {
      FirstSeenSameLength(r1, r2);
    } else {
      FirstSeenSameLength(r2, r1);
    }
  }

  lemma {:induction false} FirstSeenCommonPrefix(r1: seq<Device>, r2: seq<Device>, ds: seq<Device>, k: nat)
    requires FirstSeenOrder(r1, ds) && FirstSeenOrder(r2, ds)
    requires k <= |r1| && k <= |r2|
    ensures forall j :: 0 <= j < k ==> r1[j] == r2[j]
  {
    if k > 0 {
      FirstSeenCommonPrefix(r1, r2, ds, k - 1);
      FirstSeenAgreeAt(r1, r2, ds, k - 1);
    }
  }

  lemma {:induction false} FirstSeenAgreeAt(r1: seq<Device>, r2: seq<Device>, ds: seq<Device>, k: nat)
    requires FirstSeenOrder(r1, ds) && FirstSeenOrder(r2, ds)
    requires k < |r1| && k < |r2| && forall j :: 0 <= j < k ==> r1[j] == r2[j]
    ensures forall j :: 0 <= j <= k ==> r1[j] == r2[j]
  {
    FirstSeenNoEarlier(r1, r2, ds, k);
    FirstSeenNoEarlier(r2, r1, ds, k);
    assert r1[k] == r2[k];
  }

  /** A duplicate-free list whose addresses all occur in a shorter list it extends is no
      longer than that list. */
  lemma {:induction false} FirstSeenSameLength(short: seq<Device>, long: seq<Device>)
    requires DistinctAddresses(long)
    requires forall a :: HasAddress(long, a) ==> HasAddress(short, a)
    requires |short| <= |long| && forall j :: 0 <= j < |short| ==> long[j] == short[j]
    ensures |long| == |short|
  {
    if |long| > 0 {
      var j := |long| - 1;
      assert HasAddress(long, long[j].address);
      var m :| 0 <= m < |short| && short[m].address == long[j].address;
      assert long[m] == short[m];
    }
  }

  // ---------------------------------------------------------------------------
  // The imperative model

  /** The linear scan behind the receiver's duplicate check: does any entry of
      `devices` have the given address? */
  method AnyHasAddress(devices: seq<Device>, address: string) returns (found: bool)
    ensures found <==> HasAddress(devices, address)
  {
    found := false;
    var i := 0;
    while i < |devices| && !found
      invariant 0 <= i <= |devices|
      invariant found <==> exists k :: 0 <= k < i && devices[k].address == address
    {
      found := devices[i].address == address;
      i := i + 1;
    }
  }

  /** Appends every element of `devices` to `list`, each once, in an unspecified
      order, as adding a whole set to a list does. */
  method AddAll(list: seq<Device>, devices: set<Device>) returns (r: seq<Device>)
    ensures |r| == |list| + |devices|
    ensures r[..|list|] == list
    ensures multiset(r[|list|..]) == multiset(devices)
  {
    r := list;
    var rest := devices;
    while rest != {}
      invariant |list| <= |r| && r[..|list|] == list
      invariant rest <= devices
      invariant multiset(r[|list|..]) + multiset(rest) == multiset(devices)
      decreases rest
    {
      var d :| d in rest;
      assert multiset(rest) == multiset(rest - {d}) + multiset{d};
      assert r[|list|..] + [d] == (r + [d])[|list|..];
      r := r + [d];
      rest := rest - {d};
    }
    assert |multiset(r[|list|..])| == |multiset(devices)|;
  }

  /** A request the handler forwards to the platform adapter. */
  datatype AdapterRequest = StartDiscoveryRequest | CancelDiscoveryRequest

  /** The platform Bluetooth adapter, reduced to what the handler uses: the set of
      bonded devices it reports (absent when the platform reports none) and the log
      of discovery requests it has received. */
  class Adapter {
    var bondedDevices: Option<set<Device>>
    var requests: seq<AdapterRequest>

    constructor (bondedDevices: Option<set<Device>>)
      ensures this.bondedDevices == bondedDevices && requests == []
    {
      this.bondedDevices := bondedDevices;
      requests := [];
    }

    method StartDiscovery()
      modifies this
      ensures requests == old(requests) + [StartDiscoveryRequest]
      ensures bondedDevices == old(bondedDevices)
    {
      requests := requests + [StartDiscoveryRequest];
    }

    method CancelDiscovery()
      modifies this
      ensures requests == old(requests) + [CancelDiscoveryRequest]
      ensures bondedDevices == old(bondedDevices)
    {
      requests := requests + [CancelDiscoveryRequest];
    }
  }

  class BluetoothHandler {
    const adapter: Adapter
    var bondedDevice: seq<Device>
    var discoveredDevice: seq<Device>
    var discoveryState: BluetoothDiscoveryState

    /** What the handler publishes. */
    function State(): HandlerState
      reads this
    {
      HandlerState(discoveryState, discoveredDevice, bondedDevice)
    }

    /** A new handler over the given lists; discovery has not started yet. */
    constructor (adapter: Adapter, bondedDevice: seq<Device>, discoveredDevice: seq<Device>)
      ensures this.adapter == adapter
      ensures State() == HandlerState(NotDiscoveryYet, discoveredDevice, bondedDevice)
    {
      this.adapter := adapter;
      this.bondedDevice := bondedDevice;
      this.discoveredDevice := discoveredDevice;
      discoveryState := NotDiscoveryYet;
    }

    /** The broadcast receiver. */
    method OnReceive(intent: Option<Intent>)
      modifies this
      ensures State() == Receive(old(State()), intent)
      ensures DistinctAddresses(old(discoveredDevice)) ==> DistinctAddresses(discoveredDevice)
    {
      var action := if intent.Some? then intent.value.action else None;
      if action == Some(ActionDiscoveryStarted) {
        discoveryState := OnDiscovery;
      } else if action == Some(ActionDiscoveryFinished) {
        discoveryState := DiscoveryFinish;
      } else if action == Some(ActionFound) {
        var device := intent.value.deviceExtra;
        if device.Some? {
          var known := AnyHasAddress(discoveredDevice, device.value.address);
          if !known {
            discoveredDevice := discoveredDevice + [device.value];
          }
        }
      }
    }

    /** Asks the adapter to start discovery; the published state is untouched. */
    method StartDiscovery()
      modifies adapter
      ensures adapter.requests == old(adapter.requests) + [StartDiscoveryRequest]
      ensures adapter.bondedDevices == old(adapter.bondedDevices)
      ensures State() == old(State())
    {
      adapter.StartDiscovery();
    }

    /** Asks the adapter to cancel discovery; the published state is untouched. */
    method StopDiscovery()
      modifies adapter
      ensures adapter.requests == old(adapter.requests) + [CancelDiscoveryRequest]
      ensures adapter.bondedDevices == old(adapter.bondedDevices)
      ensures State() == old(State())
    {
      adapter.CancelDiscovery();
    }

    /** Replaces the bonded list by the adapter's bonded devices, or leaves it alone
        when the adapter reports none. */
    method UpdateBondedDevice()
      modifies this`bondedDevice
      ensures adapter.bondedDevices.None? ==> bondedDevice == old(bondedDevice)
      ensures adapter.bondedDevices.Some? ==> multiset(bondedDevice) == multiset(adapter.bondedDevices.value)
      ensures adapter.bondedDevices.Some? ==> forall d :: d in bondedDevice <==> d in adapter.bondedDevices.value
      ensures discoveryState == old(discoveryState) && discoveredDevice == old(discoveredDevice)
    {
      var reported := adapter.bondedDevices;
      if reported.Some? {
        bondedDevice := [];
        bondedDevice := AddAll(bondedDevice, reported.value);
        assert forall d :: d in bondedDevice <==> d in multiset(bondedDevice);
      }
    }
  }

  /** A client of the handler: a scan that is started, finished and restarted, with
      broadcasts in between that carry nothing. */
  method RestartScenario()
  {
    var adapter := new Adapter(None);
    var handler := new BluetoothHandler(adapter, [], []);
    var started := Some(Intent(Some(ActionDiscoveryStarted), None));
    handler.StartDiscovery();
    handler.OnReceive(started);
    assert handler.discoveryState == OnDiscovery;
    var empty := Some(Intent(Some(ActionFound), None));
    assert Announced(empty) == None && FoundDevice(empty) == None;
    handler.OnReceive(empty);
    handler.OnReceive(None);
    assert handler.discoveryState == OnDiscovery && handler.discoveredDevice == [];
    handler.OnReceive(Some(Intent(Some(ActionDiscoveryFinished), None)));
    assert handler.discoveryState == DiscoveryFinish;
    handler.OnReceive(started);
    assert handler.discoveryState == OnDiscovery && handler.discoveredDevice == [];
    handler.StopDiscovery();
    assert adapter.requests == [StartDiscoveryRequest, CancelDiscoveryRequest];
    assert handler.discoveryState == OnDiscovery;
  }

  /** A client of the handler: one device reported twice. */
  method FoundScenario(a: Device, b: Device)
    requires a.address != b.address
  {
    var adapter := new Adapter(None);
    var handler := new BluetoothHandler(adapter, [], []);
    var foundA := Some(Intent(Some(ActionFound), Some(a)));
    var foundB := Some(Intent(Some(ActionFound), Some(b)));
    assert Announced(foundA) == None && FoundDevice(foundA) == Some(a);
    assert Announced(foundB) == None && FoundDevice(foundB) == Some(b);
    assert !HasAddress([], a.address) && !HasAddress([a], b.address);
    assert [a, b][0] == a;
    handler.OnReceive(foundA);
    assert handler.discoveredDevice == [] + [a];
    handler.OnReceive(foundB);
    assert handler.discoveredDevice == [a] + [b] == [a, b];
    handler.OnReceive(foundA);
    assert handler.discoveredDevice == [a, b];
    assert handler.discoveryState == NotDiscoveryYet;
  }

  /** A client of the handler: two bonded refreshes, with `{a, b}` and then `{b, c}`,
      followed by one where the adapter reports nothing. */
  method BondedRefreshScenario(a: Device, b: Device, c: Device)
    requires a != b && a != c
  {
    var adapter := new Adapter(Some({a, b}));
    var handler := new BluetoothHandler(adapter, [], []);
    handler.UpdateBondedDevice();
    assert a in handler.bondedDevice && b in handler.bondedDevice;
    adapter.bondedDevices := Some({b, c});
    handler.UpdateBondedDevice();
    assert b in handler.bondedDevice && c in handler.bondedDevice && a !in handler.bondedDevice;
    adapter.bondedDevices := None;
    var kept := handler.bondedDevice;
    handler.UpdateBondedDevice();
    assert handler.bondedDevice == kept;
  }
}
