/** The feed pipeline of `fetchLocationSightings` (App.js:64-99): keep the
    items whose title mentions an ISS sighting, parse their descriptions,
    keep the sightings longer than one minute, default the notification flag,
    keep the sightings dated after the moment 24 hours before the fetch, and
    merge in the stored flags. */
module Feed {
  import opened Wrappers
  import opened JsStrings
  import opened JsNumbers
  import opened Seqs
  import opened Description
  import opened Storage

  /** One `<item>` of the feed's channel. */
  datatype Item = Item(title: string, description: string)

  /** A parsed sighting with its notification flag. */
  datatype Sighting = Sighting(props: Props, hasSetNotification: bool)

  /** The TypeErrors that abandon the whole fetch inside the parser callback:
      reading `.replace` of an undefined Duration, and calling `.filter` on the
      item list of a channel that has no `<item>` element. */
  datatype FeedError = MissingDuration | NoItems

  const SightingMarker: string := "ISS Sighting"

  /** `e.title[0].includes('ISS Sighting')`. */
  predicate IsIssSighting(item: Item)
  {
    Includes(item.title, SightingMarker)
  }

  /** The text a property contributes to a string concatenation: its value, or
      "undefined" when it is missing or has no value. */
  function FieldText(props: Props, key: string): string
  {
    if key in props && props[key].Some? then props[key].value else "undefined"
  }

  /** `e.Date + ' ' + e.Time`: the key a sighting's flag is stored under. */
  function SightingKey(props: Props): string
  {
    FieldText(props, "Date") + " " + FieldText(props, "Time")
  }

  /** `e.Duration`, undefined when missing or valueless. */
  function Duration(props: Props): Option<string>
  {
    if "Duration" in props then props["Duration"] else None
  }

  /** `duration.replace('For', '').replace('minutes', '') > 1`. */
  predicate DurationQualifies(duration: string)
  {
    GreaterThanOne(ToNumber(ReplaceFirst(ReplaceFirst(duration, "For", ""), "minutes", "")))
  }

  /** The duration test `qualifies` applied to a record's Duration, which must
      be present; the feed applies `DurationQualifies`. */
  predicate LongEnough(qualifies: string -> bool, props: Props)
  {
    Duration(props).Some? && qualifies(Duration(props).value)
  }

  /** `LongEnough` as the test handed to `filter`. */
  function LongEnoughTest(qualifies: string -> bool): Props -> bool
  {
    (props: Props) => LongEnough(qualifies, props)
  }

  /** The duration filter (App.js:85): it throws on the first record without a
      Duration, and otherwise keeps the records whose duration qualifies. */
  function FilterByDuration(qualifies: string -> bool, records: seq<Props>): (r: Result<seq<Props>, FeedError>)
    ensures r.Success? <==> forall k :: 0 <= k < |records| ==> Duration(records[k]).Some?
    ensures r.Success? ==> r.value == Filter(LongEnoughTest(qualifies), records)
    ensures r.Failure? ==> r.error == MissingDuration
  {
    if records == [] then Success([])
    else
      assert forall k :: 1 <= k < |records| ==> records[1..][k - 1] == records[k];
      match Duration(records[0])
      case None => Failure(MissingDuration)
      case Some(d) =>
        match FilterByDuration(qualifies, records[1..])
        case Failure(e) =>
          assert exists k :: 0 <= k < |records[1..]| && Duration(records[1..][k]).None?;
          Failure(e)
        case Success(rest) =>
          assert LongEnoughTest(qualifies)(records[0]) == qualifies(d);
          Success((if qualifies(d) then [records[0]] else []) + rest)
  }

  /** The date test (App.js:89), left abstract: `inWindow` tells whether a
      date text denotes a moment later than 24 hours before the fetch, so every
      future date passes it. A missing Date is an invalid date, which compares
      as NaN and is dropped. */
  predicate IsRecent(inWindow: string -> bool, sighting: Sighting)
  {
    "Date" in sighting.props && sighting.props["Date"].Some? && inWindow(sighting.props["Date"].value)
  }

  function Unflagged(props: Props): Sighting
  {
    Sighting(props, false)
  }

  /** The chain of `filter` and `map` calls of App.js:64-99, stage by stage,
      with the description parser as a parameter. */
  function Pipeline(parse: string -> Props, qualifies: string -> bool, items: seq<Item>, inWindow: string -> bool, store: map<string, bool>)
    : (r: Result<seq<Sighting>, FeedError>)
    ensures r.Failure? ==> r.error == MissingDuration
    ensures r.Success? ==> |r.value| <= |Filter(IsIssSighting, items)|
  {
    var sightingItems := Filter(IsIssSighting, items);
    var descriptions := Map((e: Item) => e.description, sightingItems);
    var parsed := Map(parse, descriptions);
    match FilterByDuration(qualifies, parsed)
    case Failure(e) => Failure(e)
    case Success(long) =>
      var unflagged := Map(Unflagged, long);
      var recent := Filter((e: Sighting) => IsRecent(inWindow, e), unflagged);
      Success(Map((e: Sighting) => e.(hasSetNotification := StoredFlag(store, SightingKey(e.props))), recent))
  }

  /** What `fetchLocationSightings` computes from the feed's channel: `items`
      is `None` when the channel has no `<item>` element. */
  function FetchSightings(items: Option<seq<Item>>, inWindow: string -> bool, store: map<string, bool>)
    : (r: Result<seq<Sighting>, FeedError>)
    ensures items.None? ==> r == Failure(NoItems)
    ensures items.Some? ==> (r.Failure? <==> !DurationsPresent(ParseDescription, items.value))
  {
    match items
    case None => Failure(NoItems)
    case Some(list) =>
      PipelineFailsIff(ParseDescription, DurationQualifies, list, inWindow, store);
      Pipeline(ParseDescription, DurationQualifies, list, inWindow, store)
  }

  // The same computation read item by item: an item survives when all the
  // tests hold of it, and becomes its parsed record with the stored flag.

  predicate Survives(parse: string -> Props, qualifies: string -> bool, inWindow: string -> bool, item: Item)
  {
    IsIssSighting(item) && LongEnough(qualifies, parse(item.description)) && IsRecent(inWindow, Unflagged(parse(item.description)))
  }

  function Build(parse: string -> Props, store: map<string, bool>, item: Item): Sighting
  {
    var props := parse(item.description);
    Sighting(props, StoredFlag(store, SightingKey(props)))
  }

  /** Every sighting item of the feed has a Duration. */
  predicate DurationsPresent(parse: string -> Props, items: seq<Item>)
  {
    forall k :: 0 <= k < |items| && IsIssSighting(items[k]) ==> Duration(parse(items[k].description)).Some?
  }

  /** The pipeline fails exactly when some sighting item has no Duration; items
      without the marker in their title never make it fail. */
  lemma PipelineFailsIff(parse: string -> Props, qualifies: string -> bool, items: seq<Item>, inWindow: string -> bool, store: map<string, bool>)
    ensures Pipeline(parse, qualifies, items, inWindow, store).Failure? <==> !DurationsPresent(parse, items)
  {
    var sightingItems := Filter(IsIssSighting, items);
    var parsed := Map(parse, Map((e: Item) => e.description, sightingItems));
    if DurationsPresent(parse, items) {
      forall k | 0 <= k < |parsed|
        ensures Duration(parsed[k]).Some?
      {
        FilterKeptFromInput(IsIssSighting, items, k);
        var j :| 0 <= j < |items| && items[j] == sightingItems[k];
        assert parsed[k] == parse(items[j].description);
      }
    } else {
      var j :| 0 <= j < |items| && IsIssSighting(items[j]) && Duration(parse(items[j].description)).None?;
      FilterKeeps(IsIssSighting, items, j);
      var k :| 0 <= k < |sightingItems| && sightingItems[k] == items[j];
      assert Duration(parsed[k]).None?;
    }
  }

  /** The staged chain equals the single pass: filter by `Survives`, then build. */
  lemma PipelineIsOnePass(parse: string -> Props, qualifies: string -> bool, items: seq<Item>, inWindow: string -> bool, store: map<string, bool>)
    requires DurationsPresent(parse, items)
    ensures Pipeline(parse, qualifies, items, inWindow, store)
      == Success(Map(x => Build(parse, store, x), Filter(x => Survives(parse, qualifies, inWindow, x), items)))
  {
    PipelineFailsIff(parse, qualifies, items, inWindow, store);
    var description := (e: Item) => e.description;
    var parseItem := (e: Item) => parse(e.description);
    var long := (e: Item) => LongEnough(qualifies, parse(e.description));
    var sightingAndLong := (e: Item) => IsIssSighting(e) && LongEnough(qualifies, parse(e.description));
    var unflag := (e: Item) => Unflagged(parse(e.description));
    var recent := (e: Sighting) => IsRecent(inWindow, e);
    var recentItem := (e: Item) => IsRecent(inWindow, Unflagged(parse(e.description)));
    var survives := (e: Item) => sightingAndLong(e) && recentItem(e);
    var flag := (e: Sighting) => e.(hasSetNotification := StoredFlag(store, SightingKey(e.props)));
    var build := (e: Item) => Build(parse, store, e);

    var s1 := Filter(IsIssSighting, items);
    MapOfMap(parse, description, parseItem, s1);
    // The duration filter, moved before the parse.
    FilterOfMap(LongEnoughTest(qualifies), parseItem, long, s1);
    var s2 := Filter(long, s1);
    FilterOfFilter(long, IsIssSighting, sightingAndLong, items);
    assert s2 == Filter(sightingAndLong, items);
    // Defaulting the flag, then the date window moved before it.
    MapOfMap(Unflagged, parseItem, unflag, s2);
    FilterOfMap(recent, unflag, recentItem, s2);
    var s3 := Filter(recentItem, s2);
    FilterOfFilter(recentItem, sightingAndLong, survives, items);
    // Merging the stored flags.
    MapOfMap(flag, unflag, build, s3);
    FilterExtensional(survives, x => Survives(parse, qualifies, inWindow, x), items);
    MapExtensional(build, x => Build(parse, store, x), s3);
  }

  /** The records come from sighting items, in feed order: each is the built
      record of an item that passed every test, and their items' positions
      strictly increase. */
  lemma PipelineInFeedOrder(parse: string -> Props, qualifies: string -> bool, items: seq<Item>, inWindow: string -> bool, store: map<string, bool>)
    returns (origins: seq<nat>)
    requires Pipeline(parse, qualifies, items, inWindow, store).Success?
    ensures var out := Pipeline(parse, qualifies, items, inWindow, store).value;
      && |origins| == |out|
      && (forall k :: 0 <= k < |out| ==>
            && origins[k] < |items|
            && IsIssSighting(items[origins[k]])
            && Survives(parse, qualifies, inWindow, items[origins[k]])
            && out[k] == Build(parse, store, items[origins[k]]))
      && (forall k, l :: 0 <= k < l < |out| ==> origins[k] < origins[l])
  {
    PipelineFailsIff(parse, qualifies, items, inWindow, store);
    PipelineIsOnePass(parse, qualifies, items, inWindow, store);
    var survives := x => Survives(parse, qualifies, inWindow, x);
    FilterOriginsSpec(survives, items);
    origins := FilterOrigins(survives, items);
  }

  /** Every record kept is longer than a minute, dated within the window, and
      carries the flag stored under its `Date Time` key. */
  lemma PipelineRecordsQualify(parse: string -> Props, qualifies: string -> bool, items: seq<Item>, inWindow: string -> bool, store: map<string, bool>)
    requires Pipeline(parse, qualifies, items, inWindow, store).Success?
    ensures forall r :: r in Pipeline(parse, qualifies, items, inWindow, store).value ==>
      && LongEnough(qualifies, r.props)
      && IsRecent(inWindow, Unflagged(r.props))
      && r.hasSetNotification == StoredFlag(store, SightingKey(r.props))
  {
    var out := Pipeline(parse, qualifies, items, inWindow, store).value;
    var origins := PipelineInFeedOrder(parse, qualifies, items, inWindow, store);
    forall r | r in out
      ensures LongEnough(qualifies, r.props) && IsRecent(inWindow, Unflagged(r.props))
      ensures r.hasSetNotification == StoredFlag(store, SightingKey(r.props))
    {
      var k :| 0 <= k < |out| && out[k] == r;
      assert Survives(parse, qualifies, inWindow, items[origins[k]]);
    }
  }

  /** Items whose title lacks the marker have no effect on the outcome,
      whatever their description says. */
  lemma NonSightingsIgnored(parse: string -> Props, qualifies: string -> bool, items: seq<Item>, inWindow: string -> bool, store: map<string, bool>)
    ensures Pipeline(parse, qualifies, Filter(IsIssSighting, items), inWindow, store) == Pipeline(parse, qualifies, items, inWindow, store)
  {
    var both := (e: Item) => IsIssSighting(e) && IsIssSighting(e);
    FilterOfFilter(IsIssSighting, IsIssSighting, both, items);
    FilterExtensional(both, IsIssSighting, items);
  }

  /** A flag written under a key is the flag every record with that key gets
      on the next load, and records with other keys keep their stored flags. */
  lemma StoredFlagRoundTrip(parse: string -> Props, qualifies: string -> bool, items: seq<Item>, inWindow: string -> bool,
                            store: map<string, bool>, key: string, flag: bool)
    requires Pipeline(parse, qualifies, items, inWindow, store[key := flag]).Success?
    ensures forall r :: r in Pipeline(parse, qualifies, items, inWindow, store[key := flag]).value ==>
      r.hasSetNotification == if SightingKey(r.props) == key then flag else StoredFlag(store, SightingKey(r.props))
  {
    PipelineRecordsQualify(parse, qualifies, items, inWindow, store[key := flag]);
  }

  /** The two replacements strip a leading "For" and the first "minutes"
      that follows a middle part holding no `m`. */
  lemma StripWords(middle: string)
    requires forall k :: 0 <= k < |middle| ==> middle[k] != 'm'
    ensures ReplaceFirst(ReplaceFirst("For" + middle + "minutes", "For", ""), "minutes", "") == middle
  {
    assert "For" + middle + "minutes" == "For" + (middle + "minutes");
    RemoveLeading("For", middle + "minutes");
    RemoveFirstOccurrence(middle, "minutes", "");
    assert middle + "minutes" + "" == middle + "minutes";
    assert middle + "" == middle;
  }

  /** A duration spelled "For", a middle part without `m`, then "minutes"
      qualifies exactly when the middle part converts to a number above one. */
  lemma QualifiesByMiddle(middle: string)
    requires forall k :: 0 <= k < |middle| ==> middle[k] != 'm'
    ensures DurationQualifies("For" + middle + "minutes") == GreaterThanOne(ToNumber(middle))
  {
    StripWords(middle);
  }

  /** A duration of a whole number of minutes qualifies exactly when the
      number exceeds one. */
  lemma WholeMinutes(n: nat)
    ensures DurationQualifies("For " + Show(n) + " minutes") <==> n > 1
  {
    var digits := Show(n);
    var middle := " " + digits + " ";
    assert "For " + digits + " minutes" == "For" + middle + "minutes";
    StripWords(middle);
    DigitsConvert(" ", digits, " ");
  }

  /** A number followed by " minutes" holds neither `F` nor an `m` before
      "minutes". */
  lemma BareMinutesLetters(digits: string)
    requires AllDigits(digits)
    ensures forall k :: 0 <= k < |digits + " minutes"| ==> (digits + " minutes")[k] != 'F'
    ensures forall k :: 0 <= k < |digits + " "| ==> (digits + " ")[k] != 'm'
  {
    var s := digits + " minutes";
    forall k | 0 <= k < |s|
      ensures s[k] != 'F'
    {
      if k < |digits| {
        assert s[k] == digits[k];
      }
    }
    forall k | 0 <= k < |digits + " "|
      ensures (digits + " ")[k] != 'm'
    {
      if k < |digits| {
        assert (digits + " ")[k] == digits[k];
      }
    }
  }

  /** A duration spelled as the feed writes it, "n minutes" without "For",
      qualifies exactly when n exceeds one: there is no "For" to strip. */
  lemma BareMinutes(n: nat)
    ensures DurationQualifies(Show(n) + " minutes") <==> n > 1
  {
    var digits := Show(n);
    var s := digits + " minutes";
    BareMinutesLetters(digits);
    AbsentWithoutFirstChar(s, "For");
    assert ReplaceFirst(s, "For", "") == s;
    assert s == (digits + " ") + "minutes" + "";
    RemoveFirstOccurrence(digits + " ", "minutes", "");
    assert (digits + " ") + "" == "" + digits + " ";
    DigitsConvert("", digits, " ");
  }

  /** A decimal number between two spaces holds no `m`. */
  lemma DecimalHasNoM(whole: string, fraction: string)
    requires AllDigits(whole) && AllDigits(fraction)
    ensures var middle := " " + whole + "." + fraction + " ";
      forall k :: 0 <= k < |middle| ==> middle[k] != 'm'
  {
    var middle := " " + whole + "." + fraction + " ";
    forall k | 0 <= k < |middle|
      ensures middle[k] != 'm'
    {
      if 1 <= k <= |whole| {
        assert middle[k] == whole[k - 1];
      } else if |whole| + 2 <= k < |whole| + 2 + |fraction| {
        assert middle[k] == fraction[k - |whole| - 2];
      }
    }
  }

  /** The number a fractional duration is compared by. */
  lemma FractionalMiddle(n: nat, fraction: string)
    requires fraction != [] && AllDigits(fraction)
    ensures DurationQualifies("For " + Show(n) + "." + fraction + " minutes")
      == GreaterThanOne(ToNumber(" " + Show(n) + "." + fraction + " "))
  {
    var whole := Show(n);
    var middle := " " + whole + "." + fraction + " ";
    assert "For " + whole + "." + fraction + " minutes" == "For" + middle + "minutes";
    DecimalHasNoM(whole, fraction);
    QualifiesByMiddle(middle);
  }

  /** A duration with a fractional number of minutes qualifies exactly when
      its exact decimal value exceeds one. */
  lemma FractionalMinutes(n: nat, fraction: string)
    requires fraction != [] && AllDigits(fraction)
    ensures DurationQualifies("For " + Show(n) + "." + fraction + " minutes")
      <==> DigitsValue(Show(n) + fraction) > Pow10(|fraction|)
  {
    FractionalMiddle(n, fraction);
    DecimalConverts(" ", Show(n), fraction, " ");
  }

  /** Without "minutes" in it, a duration is compared by what follows "For". */
  lemma QualifiesWithoutMinutes(rest: string)
    requires IndexOf(rest, "minutes") == None
    ensures DurationQualifies("For" + rest) == GreaterThanOne(ToNumber(rest))
  {
    RemoveLeading("For", rest);
  }

  /** A number followed by the singular "minute" holds no "minutes". */
  lemma NoMinutesInSingular(digits: string)
    requires AllDigits(digits)
    ensures IndexOf(" " + digits + " minute", "minutes") == None
  {
    var rest := " " + digits + " minute";
    forall q | 0 <= q && q + 7 <= |rest|
      ensures rest[q] != 'm'
    {
      if 1 <= q <= |digits| {
        assert rest[q] == digits[q - 1];
      }
    }
    AbsentForLackOfRoom(rest, "minutes");
  }

  /** The number a duration in the singular is compared by: "minute" is
      not "minutes" and stays in place. */
  lemma SingularMiddle(n: nat)
    ensures DurationQualifies("For " + Show(n) + " minute") == GreaterThanOne(ToNumber(" " + Show(n) + " minute"))
  {
    var rest := " " + Show(n) + " minute";
    assert "For " + Show(n) + " minute" == "For" + rest;
    NoMinutesInSingular(Show(n));
    QualifiesWithoutMinutes(rest);
  }

  /** A number followed by the word "minute" does not convert to a number. */
  lemma SingularIsNaN(digits: string)
    requires digits != [] && AllDigits(digits)
    ensures ToNumber(" " + digits + " minute") == NaN
  {
    var u := digits + " minute";
    assert " " + digits + " minute" == " " + u + "";
    assert u[0] == digits[0] && u[|digits|] == ' ' && u[|u| - 1] == 'e';
    StrayCharacterConverts(" ", u, "", |digits|);
  }

  /** A duration written with the singular "minute" never qualifies, since
      only "minutes" is stripped. */
  lemma SingularMinute(n: nat)
    ensures !DurationQualifies("For " + Show(n) + " minute")
  {
    SingularMiddle(n);
    SingularIsNaN(Show(n));
  }
}
