# Bluetooth discovery handler, modelled in Dafny

This project models the discovery bookkeeping of `BluetoothHandler`, the one piece of
logic in a small Android demonstration app that lists bonded and discovered Bluetooth
devices. The handler publishes three things:

- the discovery state, one of `NOT_DISCOVERY_YET`, `ON_DICOVERY` and `DISCOVERY_FINISH`
  (in the model `NotDiscoveryYet`, `OnDiscovery` and `DiscoveryFinish`);
- `discoveredDevice`, the devices reported by "device found" broadcasts, one entry per
  hardware address, in the order addresses were first reported;
- `bondedDevice`, the adapter's bonded devices as of the last refresh.

A broadcast receiver reacts to three platform broadcasts: "discovery started",
"discovery finished" and "device found". `startDiscovery` and `stopDiscovery` only
forward a request to the adapter. `updateBondedDevice` replaces the bonded list by the
adapter's bonded set, or leaves it alone when the adapter reports none.

Everything is in `bluetooth_handler.dfy`, module `Bluetooth`:

- The specification is pure. `Receive` is the receiver's reaction to one broadcast.
  `Run` delivers a sequence of broadcasts in order. The lemmas state what any sequence
  of broadcasts does: the state is the one announced by the last "started" or
  "finished" broadcast; the discovered list only grows at the end and never repeats an
  address; and it is exactly the first-seen list of the reported devices. That list is
  unique, so this last lemma pins the discovered list down completely.
- The imperative model is the class `BluetoothHandler`. It has the Kotlin class's three
  mutable properties as fields and one method per operation. `OnReceive` is proved to
  do exactly what `Receive` specifies. Its duplicate check (`any { … }`) is the loop
  `AnyHasAddress`. The bonded refresh's `clear()` then `addAll(set)` is `AddAll`, a loop
  that takes the set's elements in an unspecified order.
- The platform adapter is the small class `Adapter`. It holds the bonded set it reports
  (`None` for the platform's null) and a log of the start and cancel requests it has
  received. A broadcast is an `Intent` with an optional action string (the platform's
  constants) and the device extra, already extracted.
- `RestartScenario`, `FoundScenario` and `BondedRefreshScenario` are clients of the
  class. They start, finish and restart a scan, with broadcasts between that carry nothing; report one device twice; and refresh the
  bonded list with `{a, b}`, then `{b, c}`, then with no answer from the adapter.

## Model

| member | source | states |
|---|---|---|
| `Bluetooth.BluetoothHandler.constructor` | app/src/main/java/com/example/bluetoothpractice/BluetoothHandler.kt:32-41 | a new handler starts in `NotDiscoveryYet` and keeps the bonded and discovered lists it is given |
| `Bluetooth.BluetoothHandler.OnReceive` | app/src/main/java/com/example/bluetoothpractice/BluetoothHandler.kt:43-64 | the receiver changes the published state exactly as `Receive` says, so it keeps a duplicate-free discovered list duplicate-free |
| `Bluetooth.Receive` | app/src/main/java/com/example/bluetoothpractice/BluetoothHandler.kt:43-64 | no broadcast touches the bonded list; "started" and "finished" set the state they announce from any prior state and leave the discovered list alone; any other broadcast keeps the state; only a "found" broadcast carrying a device changes the discovered list, and no broadcast introduces a repeated address |
| `Bluetooth.AddIfNew` | app/src/main/java/com/example/bluetoothpractice/BluetoothHandler.kt:57-61 | a reported device whose address is already listed leaves the list unchanged; a new address is appended at the end; earlier entries keep their order and values; the listed addresses grow by exactly the reported one; no repeated address is introduced |
| `Bluetooth.ReceiveIdempotent` | app/src/main/java/com/example/bluetoothpractice/BluetoothHandler.kt:43-64 | delivering the same broadcast twice in a row has the effect of delivering it once |
| `Bluetooth.RunKeepsDistinctAddresses` | app/src/main/java/com/example/bluetoothpractice/BluetoothHandler.kt:53-62 | if the discovered list has no two entries with one address, no sequence of broadcasts creates such a pair |
| `Bluetooth.RunOnlyAppends` | app/src/main/java/com/example/bluetoothpractice/BluetoothHandler.kt:43-64 | over any sequence of broadcasts the bonded list is untouched, the earlier discovered entries stay in place as a prefix, and the list grows by at most one entry per broadcast |
| `Bluetooth.RunStateQuiet` | app/src/main/java/com/example/bluetoothpractice/BluetoothHandler.kt:44-51 | broadcasts that are neither "started" nor "finished" never change the discovery state |
| `Bluetooth.RunStateLast` | app/src/main/java/com/example/bluetoothpractice/BluetoothHandler.kt:44-51 | after any sequence of broadcasts the state is the one announced by the last "started" or "finished" broadcast, whatever came before it, so a finished scan can be restarted |
| `Bluetooth.RunFirstSeenOrder` | app/src/main/java/com/example/bluetoothpractice/BluetoothHandler.kt:53-62 | starting from a duplicate-free list, the discovered list holds one entry per distinct address among the initial entries and the found devices, each the first device reported with that address, ordered by first report |
| `Bluetooth.FirstSeenOrderUnique` | app/src/main/java/com/example/bluetoothpractice/BluetoothHandler.kt:58-59 | at most one list is in first-seen order for a given sequence of reports, so the discovered list is fully determined by the reports |
| `Bluetooth.AnyHasAddress` | app/src/main/java/com/example/bluetoothpractice/BluetoothHandler.kt:58 | the scan answers true exactly when some listed device has the given address |
| `Bluetooth.AddAll` | app/src/main/java/com/example/bluetoothpractice/BluetoothHandler.kt:107 | adding a set to a list keeps the list as a prefix and appends every element of the set exactly once |
| `Bluetooth.BluetoothHandler.StartDiscovery` | app/src/main/java/com/example/bluetoothpractice/BluetoothHandler.kt:93-95 | the adapter gets one start request; the discovery state and both lists are unchanged |
| `Bluetooth.BluetoothHandler.StopDiscovery` | app/src/main/java/com/example/bluetoothpractice/BluetoothHandler.kt:98-100 | the adapter gets one cancel request; the discovery state and both lists are unchanged (no local move to `DiscoveryFinish`) |
| `Bluetooth.BluetoothHandler.UpdateBondedDevice` | app/src/main/java/com/example/bluetoothpractice/BluetoothHandler.kt:104-109 | with no bonded set from the adapter the bonded list keeps its value; otherwise it holds each reported device exactly once and nothing from earlier refreshes; the discovery state and the discovered list are untouched |

## Left out

- Lifecycle registration (BluetoothHandler.kt:66-90) is left out. Registering the receiver on resume, unregistering it on pause, and the cancel request on pause are platform plumbing. Which broadcasts reach the receiver is the platform's choice, so the model delivers any broadcast sequence.
- `rememberBluetoothState` and its `mapSaver` (BluetoothHandler.kt:112-156) are Compose state plumbing and are left out. The map built at lines 131-134 is empty, so a restored handler always starts from empty lists. The constructor takes arbitrary lists, which covers this case.
- MainActivity.kt is not part of this model. It is UI and permission requests that call the handler's three commands.
- Platform internals are abstract inputs: the adapter's discovery, the extraction of the device extra (`getParcelableExtra`), and the asynchronous delivery of broadcasts. `Intent.deviceExtra` stands for the extracted value.
- The source reads `adapter.bondedDevices` twice (lines 105 and 107). The model reads it once. The two reads can only differ if the platform changes the set between them, and the model is single-threaded.
- The Kotlin lists are shared with the caller that passed them to the constructor. The model gives the handler its own copy, so aliasing and concurrent observers of the lists and of the state flow are not modelled.
- `Bluetooth.BluetoothHandler.UpdateBondedDevice` and `Bluetooth.AddAll` specify the bonded list by its elements and their counts, not by their order, because the adapter's set has no defined iteration order.
- `Device` is a value of address and name. A `BluetoothDevice` compares equal by address alone. The deduplication of discovered devices compares addresses, as the source does. The bonded set of the model could in principle hold two values with the same address and different names, which the platform's set would not.
- The return value of the adapter's `startDiscovery` and `cancelDiscovery` is ignored by the source and not modelled. The adapter only logs the request.
- Permission and API-level annotations (`@RequiresPermission`, `@RequiresApi`) are compile-time checks and are left out.
