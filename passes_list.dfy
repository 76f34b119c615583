/** The state of the `PassesList` screen (App.js:36-149, 195-236): the chosen
    location, the loaded sightings with their notification flags, and the
    key-value store those flags are saved in. */
module PassesListScreen {
  import opened Wrappers
  import opened Seqs
  import opened Description
  import opened Storage
  import opened Feed
  import opened Stations

  /** What pressing a sighting's bell asks of the notification centre. */
  datatype Reminder = Schedule(key: string) | Cancel(key: string)

  /** Every sighting's flag is the one stored under its `Date Time` key. */
  predicate Consistent(sightings: seq<Sighting>, store: map<string, bool>)
  {
    forall k :: 0 <= k < |sightings| ==>
      sightings[k].hasSetNotification == StoredFlag(store, SightingKey(sightings[k].props))
  }

  /** `item.hasSetNotification = !item.hasSetNotification`. */
  function Flip(item: Sighting): Sighting
  {
    item.(hasSetNotification := !item.hasSetNotification)
  }

  /** Flipping keeps the properties, changes the flag, and a second flip
      gives back the sighting. */
  lemma FlipTwice(item: Sighting)
    ensures Flip(item).props == item.props
    ensures Flip(item).hasSetNotification != item.hasSetNotification
    ensures Flip(Flip(item)) == item
  {
  }

  /** The list after toggling the sighting at `i`: every entry with the same
      `Date Time` key is replaced by the flipped sighting, so no entry's key
      changes. */
  function Toggled(sightings: seq<Sighting>, i: nat): (r: seq<Sighting>)
    requires i < |sightings|
    ensures |r| == |sightings|
    ensures forall k :: 0 <= k < |r| ==> SightingKey(r[k].props) == SightingKey(sightings[k].props)
  {
    var key := SightingKey(sightings[i].props);
    var item := Flip(sightings[i]);
    Map((e: Sighting) => if SightingKey(e.props) == key then item else e, sightings)
  }

  /** Toggling flips the entry pressed, replaces the entries sharing its key
      by it, and leaves every other entry and the length as they were. */
  lemma ToggledEntries(sightings: seq<Sighting>, i: nat)
    requires i < |sightings|
    ensures |Toggled(sightings, i)| == |sightings|
    ensures Toggled(sightings, i)[i].props == sightings[i].props
    ensures Toggled(sightings, i)[i].hasSetNotification == !sightings[i].hasSetNotification
    ensures forall k :: 0 <= k < |sightings| ==>
      Toggled(sightings, i)[k] ==
        if SightingKey(sightings[k].props) == SightingKey(sightings[i].props)
        then Flip(sightings[i]) else sightings[k]
  {
  }

  /** Toggling and saving the new flag keeps the list consistent with the store. */
  lemma ToggleKeepsConsistent(sightings: seq<Sighting>, store: map<string, bool>, i: nat)
    requires i < |sightings| && Consistent(sightings, store)
    ensures Consistent(Toggled(sightings, i),
                       store[SightingKey(sightings[i].props) := !sightings[i].hasSetNotification])
  {
    var key := SightingKey(sightings[i].props);
    var flag := !sightings[i].hasSetNotification;
    var r := Toggled(sightings, i);
    forall k | 0 <= k < |r|
      ensures r[k].hasSetNotification == StoredFlag(store[key := flag], SightingKey(r[k].props))
    {
      StoreThenRead(store, key, flag, SightingKey(sightings[k].props));
    }
  }

  /** Toggling the same sighting twice restores the list, when the entries
      sharing its key are copies of it. */
  lemma ToggleTwice(sightings: seq<Sighting>, i: nat)
    requires i < |sightings|
    requires forall k :: 0 <= k < |sightings| && SightingKey(sightings[k].props) == SightingKey(sightings[i].props) ==>
      sightings[k] == sightings[i]
    ensures Toggled(Toggled(sightings, i), i) == sightings
  {
    var once := Toggled(sightings, i);
    ToggledEntries(sightings, i);
    ToggledEntries(once, i);
  }

  /** The reminder a press asks for: cancel a set reminder, else schedule one. */
  function ReminderFor(item: Sighting): (reminder: Reminder)
    ensures reminder.key == SightingKey(item.props)
    ensures reminder.Cancel? <==> item.hasSetNotification
  {
    var key := SightingKey(item.props);
    if item.hasSetNotification then Cancel(key) else Schedule(key)
  }

  /** Pressing the same bell twice asks first for one request and then for
      the opposite one, under the same key. */
  lemma ToggleReversesReminder(sightings: seq<Sighting>, i: nat)
    requires i < |sightings|
    ensures ReminderFor(Toggled(sightings, i)[i]).key == ReminderFor(sightings[i]).key
    ensures ReminderFor(Toggled(sightings, i)[i]).Schedule? <==> ReminderFor(sightings[i]).Cancel?
  {
    ToggledEntries(sightings, i);
  }

  class PassesList {
    var sightings: seq<Sighting>
    var isLoading: bool
    var currentLocation: string
    /** The key-value store, as far as the flags saved in it go. */
    var store: map<string, bool>

    ghost predicate Valid()
      reads this
    {
      Consistent(sightings, store)
    }

    /** The initial state: loading, at the location "unknown", nothing loaded. */
    constructor(store: map<string, bool>)
      ensures Valid()
      ensures this.sightings == [] && this.isLoading && this.currentLocation == "unknown"
      ensures this.store == store
    {
      this.sightings := [];
      this.isLoading := true;
      this.currentLocation := "unknown";
      this.store := store;
    }

    /** The position callback: choose the nearest station and make its key the
        current location; with an empty table the callback throws and nothing
        changes. */
    method ResolveLocation(stations: seq<Station>, distance: Coord -> int) returns (r: Result<string, LocationError>)
      modifies this
      ensures r == NearestLocation(stations, distance)
      ensures r.Failure? <==> stations == []
      ensures currentLocation == (if r.Success? then r.value else old(currentLocation))
      ensures sightings == old(sightings) && store == old(store) && isLoading == old(isLoading)
    {
      r := NearestLocation(stations, distance);
      if r.Success? {
        currentLocation := r.value;
      }
    }

    /** `fetchLocationSightings`: `items` is the item list of the feed
        downloaded for the current location, `None` when it has no `<item>`.
        When the pipeline succeeds its records become the sightings and
        loading ends; when it throws, nothing changes. */
    method FetchLocationSightings(items: Option<seq<Item>>, inWindow: string -> bool) returns (r: Result<seq<Sighting>, FeedError>)
      requires Valid()
      modifies this
      ensures r == FetchSightings(items, inWindow, store)
      ensures r.Success? ==> sightings == r.value && !isLoading
      ensures r.Failure? ==> sightings == old(sightings) && isLoading == old(isLoading)
      ensures store == old(store) && currentLocation == old(currentLocation)
      ensures Valid()
    {
      r := FetchSightings(items, inWindow, store);
      if r.Success? {
        PipelineRecordsQualify(ParseDescription, DurationQualifies, items.value, inWindow, store);
        forall k | 0 <= k < |r.value|
          ensures r.value[k].hasSetNotification == StoredFlag(store, SightingKey(r.value[k].props))
        {
          assert r.value[k] in r.value;
        }
        sightings := r.value;
        isLoading := false;
      }
    }

    /** `storeData`: save the item's flag under its `Date Time` key; when the
        write fails (`saved` false) the error is swallowed and the store is
        as it was. */
    method StoreData(item: Sighting, saved: bool)
      modifies this
      ensures store == if saved then old(store)[SightingKey(item.props) := item.hasSetNotification] else old(store)
      ensures sightings == old(sightings) && isLoading == old(isLoading) && currentLocation == old(currentLocation)
    {
      if saved {
        store := store[SightingKey(item.props) := item.hasSetNotification];
      }
    }

    /** `toggleNotificationForSighting` on the sighting at `i`: ask for the
        reminder to be cancelled or scheduled, flip its flag in the list, and
        save the new flag. The list and the store agree afterwards unless the
        write failed. */
    method ToggleNotificationForSighting(i: nat, saved: bool) returns (reminder: Reminder)
      requires i < |sightings|
      modifies this
      ensures reminder == ReminderFor(old(sightings[i]))
      ensures sightings == Toggled(old(sightings), i)
      ensures store == if saved then old(store)[SightingKey(old(sightings[i]).props) := !old(sightings[i]).hasSetNotification]
                       else old(store)
      ensures isLoading == old(isLoading) && currentLocation == old(currentLocation)
      ensures old(Valid()) && saved ==> Valid()
    {
      var item := sightings[i];
      reminder := ReminderFor(item);
      var flipped := Flip(item);
      if Valid() {
        ToggleKeepsConsistent(sightings, store, i);
      }
      sightings := Toggled(sightings, i);
      StoreData(flipped, saved);
    }
  }
}
