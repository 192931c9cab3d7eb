/**
  Sending only the variables that have changed is equivalent to sending them all: over every run, with
  the handheld lost and found again in between, its slots hold what they would hold otherwise.
 */
module HidDelta {
  import opened HidMessages
  import opened HidUi
  import opened HidWire

  // Where the firmware keeps a value: display variables and hardware parameters have separate indices.
  datatype Slot = Display(index: nat) | Control(index: nat)

  type Device = map<Slot, VariableEntry>

  const RESET_SLOT: Slot := Control(4)

  function SlotOf(entry: VariableEntry): Slot {
    match entry
    case FixedPoint(index, _, _) => Display(index)
    case ShortString(index, _) => Display(index)
    case Hardware(control) => Control(HardwareIndex(control))
  }

  function Receive(device: Device, entries: seq<VariableEntry>): Device {
    if entries == [] then device
    else Receive(device, entries[..|entries| - 1])[SlotOf(entries[|entries| - 1]) := entries[|entries| - 1]]
  }

  // The firmware ignores a report that it cannot decode.
  function OnReport(device: Device, report: seq<byte>): Device {
    var entries := DecodeReport(report);
    if entries.Some? then Receive(device, entries.value) else device
  }

  function OnReports(device: Device, reports: seq<seq<byte>>): Device
    decreases |reports|
  {
    if reports == [] then device else OnReports(OnReport(device, reports[0]), reports[1..])
  }

  // A new screen clears the display variables.
  function OnScreen(device: Device): Device {
    map slot | slot in device && slot.Control? :: device[slot]
  }

  // On reconnection the handheld may hold anything. The core then sends the screen and forgets what it sent.
  datatype LinkEvent = Reconnect(found: Device) | Update(entries: seq<VariableEntry>)

  // The cache, the handheld, and the handheld as it would be if every entry were sent every time.
  // An entry that cannot be sent breaks the connection.
  datatype Link = Link(connected: bool, cache: map<nat, VariableEntry>, actual: Device, full: Device)

  // What the handheld receives while the connection breaks, and until it is found again, is left open:
  // it counts as whatever is found then.
  function OnLink(link: Link, event: LinkEvent): Link {
    match event
    case Reconnect(found) => Link(true, map[], OnScreen(found), OnScreen(found))
    case Update(entries) =>
      var filtered := Filter(link.cache, entries, |entries|);
      if link.connected && AllSendable(filtered.kept) then
        PackKeepsEntries([], filtered.kept);
        Link(true, filtered.cache,
             OnReports(link.actual, RenderAll(Pack(filtered.kept))),
             Receive(link.full, entries))
      else link.(connected := false, cache := filtered.cache)
  }

  function OnLinkAll(link: Link, events: seq<LinkEvent>): Link
    decreases |events|
  {
    if events == [] then link else OnLinkAll(OnLink(link, events[0]), events[1..])
  }

  // Equal but for the slot of the reset command, which is an event and not a value.
  predicate SameDisplay(d: Device, e: Device) {
    && (forall slot | slot in d && slot != RESET_SLOT :: slot in e && e[slot] == d[slot])
    && (forall slot | slot in e && slot != RESET_SLOT :: slot in d)
  }

  // The handheld holds what the cache says was sent last.
  predicate CacheHolds(cache: map<nat, VariableEntry>, device: Device) {
    forall key | key in cache ::
      && VariableKey(cache[key]) == key
      && Sendable(cache[key])
      && (cache[key] != Hardware(Reset) ==> SlotOf(cache[key]) in device && device[SlotOf(cache[key])] == cache[key])
  }

  predicate Faithful(link: Link) {
    link.connected ==> SameDisplay(link.actual, link.full) && CacheHolds(link.cache, link.actual)
  }

  /** The cache has one key for each slot. */
  lemma KeysAreSlots(a: VariableEntry, b: VariableEntry)
    requires Encodable(a) && Encodable(b)
    ensures VariableKey(a) == VariableKey(b) <==> SlotOf(a) == SlotOf(b)
  {
  }

  lemma OneEntry(cache: map<nat, VariableEntry>, actual: Device, full: Device, entry: VariableEntry)
    requires SameDisplay(actual, full) && CacheHolds(cache, actual) && Sendable(entry)
    ensures Unchanged(cache, entry) ==> SameDisplay(actual, full[SlotOf(entry) := entry])
    ensures SameDisplay(actual[SlotOf(entry) := entry], full[SlotOf(entry) := entry])
    ensures CacheHolds(cache[VariableKey(entry) := entry], actual[SlotOf(entry) := entry])
  {
    forall key | key in cache ensures key == VariableKey(entry) || SlotOf(cache[key]) != SlotOf(entry) {
      KeysAreSlots(cache[key], entry);
    }
  }

  // An entry that is not kept is one that was sent before.
  lemma {:induction false} AllAreSendable(
    cache: map<nat, VariableEntry>, device: Device, entries: seq<VariableEntry>, n: nat
  )
    requires n <= |entries| && CacheHolds(cache, device) && AllSendable(Filter(cache, entries, n).kept)
    ensures AllSendable(entries[..n])
    ensures forall key | key in Filter(cache, entries, n).cache :: Sendable(Filter(cache, entries, n).cache[key])
  {
    hide Sendable, VariableKey;
    if n > 0 {
      var before, after := Filter(cache, entries, n - 1), Filter(cache, entries, n);
      assert forall i | 0 <= i < |before.kept| :: after.kept[i] == before.kept[i];
      AllAreSendable(cache, device, entries, n - 1);
      assert entries[..n] == entries[..n - 1] + [entries[n - 1]];
      if !Unchanged(before.cache, entries[n - 1]) {
        assert after.kept[|before.kept|] == entries[n - 1];
      }
    }
  }

  lemma {:induction false} FilterIsFaithful(
    cache: map<nat, VariableEntry>, actual: Device, full: Device, entries: seq<VariableEntry>, n: nat
  )
    requires SameDisplay(actual, full) && CacheHolds(cache, actual) && AllSendable(entries) && n <= |entries|
    ensures
      var filtered := Filter(cache, entries, n);
      var actual' := Receive(actual, filtered.kept);
      SameDisplay(actual', Receive(full, entries[..n])) && CacheHolds(filtered.cache, actual')
  {
    hide Sendable, VariableKey, SlotOf, CacheHolds, SameDisplay;
    if n == 0 {
      assert entries[..0] == [];
    } else {
      FilterIsFaithful(cache, actual, full, entries, n - 1);
      var before, entry := Filter(cache, entries, n - 1), entries[n - 1];
      var actual', full' := Receive(actual, before.kept), Receive(full, entries[..n - 1]);
      OneEntry(before.cache, actual', full', entry);
      assert entries[..n][..n - 1] == entries[..n - 1];
      assert Receive(full, entries[..n]) == full'[SlotOf(entry) := entry];
      assert (before.kept + [entry])[..|before.kept|] == before.kept;
      assert Receive(actual, before.kept + [entry]) == actual'[SlotOf(entry) := entry];
    }
  }

  lemma {:induction false} ReceiveAppend(device: Device, p: seq<VariableEntry>, q: seq<VariableEntry>)
    ensures Receive(device, p + q) == Receive(Receive(device, p), q)
  {
    if q == [] {
      assert p + q == p;
    } else {
      var n := |q| - 1;
      assert (p + q)[..|p + q| - 1] == p + q[..n];
      ReceiveAppend(device, p, q[..n]);
    }
  }

  /** The packed reports bring the handheld all that was packed, in order. */
  lemma {:induction false} ReportsDeliver(device: Device, groups: seq<seq<VariableEntry>>)
    requires AllFit(groups)
    ensures OnReports(device, RenderAll(groups)) == Receive(device, Concat(groups))
    decreases |groups|
  {
    if groups != [] {
      var reports := RenderAll(groups);
      assert AllFit(groups[1..]) && reports[1..] == RenderAll(groups[1..]);
      assert Fits(groups[0]);
      ReportRoundTrip(groups[0]);
      ReportsDeliver(Receive(device, groups[0]), groups[1..]);
      ReceiveAppend(device, groups[0], Concat(groups[1..]));
    }
  }

  lemma LinkStep(link: Link, event: LinkEvent)
    requires Faithful(link)
    ensures Faithful(OnLink(link, event))
  {
    hide SameDisplay, CacheHolds, Sendable, Receive, OnReports, RenderAll, Filter;
    if event.Update? && OnLink(link, event).connected {
      var entries := event.entries;
      var kept := Filter(link.cache, entries, |entries|).kept;
      AllAreSendable(link.cache, link.actual, entries, |entries|);
      assert entries[..|entries|] == entries;
      PackKeepsEntries([], kept);
      assert [] + kept == kept;
      ReportsDeliver(link.actual, Pack(kept));
      FilterIsFaithful(link.cache, link.actual, link.full, entries, |entries|);
    } else if event.Reconnect? {
      NewScreen(event.found);
    }
  }

  lemma NewScreen(found: Device)
    ensures SameDisplay(OnScreen(found), OnScreen(found)) && CacheHolds(map[], OnScreen(found))
  {
  }

  /**
    Over every run of updates and reconnections, whenever the connection stands, the handheld that is
    sent only the changes, packed into reports, and the one that is sent everything hold the same in
    every slot but that of the reset command, and the cache agrees with both.
   */
  lemma {:induction false} DeltasEqualFullUpdates(link: Link, events: seq<LinkEvent>)
    requires Faithful(link)
    ensures Faithful(OnLinkAll(link, events))
    decreases |events|
  {
    hide OnLink, Faithful;
    if events != [] {
      LinkStep(link, events[0]);
      DeltasEqualFullUpdates(OnLink(link, events[0]), events[1..]);
    }
  }

  predicate DistinctKeys(entries: seq<VariableEntry>) {
    forall i, j | 0 <= i < j < |entries| :: VariableKey(entries[i]) != VariableKey(entries[j])
  }

  lemma {:induction false} FilterRemembers(cache: map<nat, VariableEntry>, entries: seq<VariableEntry>, n: nat)
    requires n <= |entries| && DistinctKeys(entries)
    ensures forall i | 0 <= i < n :: Unchanged(Filter(cache, entries, n).cache, entries[i])
  {
    hide VariableKey;
    if n > 0 { FilterRemembers(cache, entries, n - 1); }
  }

  lemma {:induction false} KnownIsNotKept(cache: map<nat, VariableEntry>, entries: seq<VariableEntry>, n: nat)
    requires n <= |entries| && forall i | 0 <= i < |entries| :: Unchanged(cache, entries[i])
    ensures Filter(cache, entries, n) == Filtered(cache, [])
  {
    if n > 0 { KnownIsNotKept(cache, entries, n - 1); }
  }

  /** Entries that show the same as the last time, each slot once, are not sent again. */
  lemma RepeatedUpdateIsSilent(cache: map<nat, VariableEntry>, entries: seq<VariableEntry>)
    requires DistinctKeys(entries)
    ensures
      var cache' := Filter(cache, entries, |entries|).cache;
      Filter(cache', entries, |entries|) == Filtered(cache', [])
  {
    FilterRemembers(cache, entries, |entries|);
    KnownIsNotKept(Filter(cache, entries, |entries|).cache, entries, |entries|);
  }

  // ----- the reset command -----

  const RESET_KEY: nat := 0x85

  // Whether an update since the last reconnection held the command, or `before` if there was none.
  predicate ResetSince(events: seq<LinkEvent>, before: bool)
    decreases |events|
  {
    if events == [] then before
    else ResetSince(events[1..], events[0].Update? && (before || Hardware(Reset) in events[0].entries))
  }

  // The command is kept if it is the first one that the cache sees, and the cache remembers it.
  lemma {:induction false} FilteredReset(cache: map<nat, VariableEntry>, entries: seq<VariableEntry>, n: nat)
    requires n <= |entries| && forall i | 0 <= i < n :: Encodable(entries[i])
    requires RESET_KEY in cache ==> cache[RESET_KEY] == Hardware(Reset)
    ensures
      var filtered := Filter(cache, entries, n);
      && (RESET_KEY in filtered.cache <==> RESET_KEY in cache || Hardware(Reset) in entries[..n])
      && (RESET_KEY in filtered.cache ==> filtered.cache[RESET_KEY] == Hardware(Reset))
      && (Hardware(Reset) in filtered.kept <==> RESET_KEY !in cache && Hardware(Reset) in entries[..n])
  {
    if n > 0 {
      FilteredReset(cache, entries, n - 1);
      assert entries[..n] == entries[..n - 1] + [entries[n - 1]];
      assert VariableKey(entries[n - 1]) == RESET_KEY <==> entries[n - 1] == Hardware(Reset);
    }
  }

  lemma CachedReset(cache: map<nat, VariableEntry>, device: Device)
    requires CacheHolds(cache, device) && RESET_KEY in cache
    ensures cache[RESET_KEY] == Hardware(Reset)
  {
    assert Sendable(cache[RESET_KEY]);
  }

  lemma UpdatedReset(link: Link, entries: seq<VariableEntry>)
    requires Faithful(link) && OnLink(link, Update(entries)).connected
    ensures
      var kept := Filter(link.cache, entries, |entries|).kept;
      && AllSendable(kept)
      && (RESET_KEY in OnLink(link, Update(entries)).cache <==> RESET_KEY in link.cache || Hardware(Reset) in entries)
      && (Hardware(Reset) in kept <==> RESET_KEY !in link.cache && Hardware(Reset) in entries)
  {
    hide CacheHolds, SameDisplay, Sendable, Encodable, Filter, OnReports, Receive, RenderAll, Pack;
    AllAreSendable(link.cache, link.actual, entries, |entries|);
    assert entries[..|entries|] == entries;
    SendableIsEncodable(entries);
    if RESET_KEY in link.cache { CachedReset(link.cache, link.actual); }
    FilteredReset(link.cache, entries, |entries|);
  }

  lemma SendableIsEncodable(entries: seq<VariableEntry>)
    requires AllSendable(entries)
    ensures forall i | 0 <= i < |entries| :: Encodable(entries[i])
  {
    assert forall i | 0 <= i < |entries| :: Sendable(entries[i]);
  }

  lemma {:induction false} CacheRemembersReset(link: Link, events: seq<LinkEvent>, before: bool)
    requires Faithful(link) && (link.connected ==> (RESET_KEY in link.cache <==> before))
    ensures OnLinkAll(link, events).connected ==>
      (RESET_KEY in OnLinkAll(link, events).cache <==> ResetSince(events, before))
    decreases |events|
  {
    hide Faithful;
    if events != [] {
      var event := events[0];
      LinkStep(link, event);
      if event.Update? && OnLink(link, event).connected { UpdatedReset(link, event.entries); }
      CacheRemembersReset(OnLink(link, event), events[1..],
                          event.Update? && (before || Hardware(Reset) in event.entries));
    }
  }

  // Some report brings the handheld the entry.
  ghost predicate Brings(reports: seq<seq<byte>>, entry: VariableEntry) {
    exists i :: 0 <= i < |reports| && DecodeReport(reports[i]).Some? && entry in DecodeReport(reports[i]).value
  }

  lemma {:induction false} ReportsBring(groups: seq<seq<VariableEntry>>, entry: VariableEntry)
    requires AllFit(groups)
    ensures Brings(RenderAll(groups), entry) <==> entry in Concat(groups)
  {
    hide DecodeReport, Render, Fits;
    if groups != [] {
      var reports, rest := RenderAll(groups), groups[1..];
      assert Fits(groups[0]);
      ReportRoundTrip(groups[0]);
      assert AllFit(rest) && reports[1..] == RenderAll(rest);
      ReportsBring(rest, entry);
      assert reports == [reports[0]] + reports[1..];
      if Brings(reports[1..], entry) {
        var i :| 0 <= i < |reports[1..]| && DecodeReport(reports[1..][i]).Some?
                 && entry in DecodeReport(reports[1..][i]).value;
        assert reports[i + 1] == reports[1..][i];
      }
    }
  }

  /**
    The reset command is the exception, and this is exactly what becomes of it: after any run, an update
    brings it to the handheld if and only if the update holds it and no update since the last
    reconnection did. In particular a second one is dropped until the next reconnection.
   */
  lemma ResetArrivesOnce(link: Link, events: seq<LinkEvent>, entries: seq<VariableEntry>)
    requires Faithful(link) && OnLink(OnLinkAll(link, events), Update(entries)).connected
    ensures
      var kept := Filter(OnLinkAll(link, events).cache, entries, |entries|).kept;
      && AllFit(Pack(kept))
      && (Brings(RenderAll(Pack(kept)), Hardware(Reset))
          <==> Hardware(Reset) in entries && !ResetSince(events, RESET_KEY in link.cache))
  {
    hide Faithful, Filter, Brings, ResetSince;
    var now := OnLinkAll(link, events);
    var kept := Filter(now.cache, entries, |entries|).kept;
    DeltasEqualFullUpdates(link, events);
    CacheRemembersReset(link, events, RESET_KEY in link.cache);
    UpdatedReset(now, entries);
    PackKeepsEntries([], kept);
    assert [] + kept == kept;
    ReportsBring(Pack(kept), Hardware(Reset));
  }
}
