/** The notification flag kept per sighting in the device's key-value store:
    `getData` (App.js:19-32) reads it, `storeData` (App.js:195-208) writes it. */
module Storage {
  import opened Wrappers

  /** What reading one key from the store yields. */
  datatype StoreRead = Missing | Stored(valueNotif: bool) | ReadFailed

  /** `getData`: the stored `valueNotif`, `false` when the key is absent, and
      `null` (None) when reading or decoding throws. */
  function GetData(read: StoreRead): (r: Option<bool>)
    ensures r.None? <==> read.ReadFailed?
    ensures r == Some(true) <==> read == Stored(true)
  {
    match read
    case Missing => Some(false)
    case Stored(b) => Some(b)
    case ReadFailed => None
  }

  /** `await getData(key) || false`: true exactly when `true` is stored; an
      absent key and a failed read both give false. */
  function NotificationFlag(read: StoreRead): (flag: bool)
    ensures flag <==> read == Stored(true)
  {
    match GetData(read)
    case Some(b) => b || false
    case None => false
  }

  /** Reading `key` from a store that keeps one flag per key. */
  function ReadStore(store: map<string, bool>, key: string): StoreRead
  {
    if key in store then Stored(store[key]) else Missing
  }

  /** The flag a sighting with this key gets when the feed is loaded. */
  function StoredFlag(store: map<string, bool>, key: string): (flag: bool)
    ensures flag <==> key in store && store[key]
  {
    NotificationFlag(ReadStore(store, key))
  }

  /** A flag written under a key is the flag later read under it, and other
      keys read as before. */
  lemma StoreThenRead(store: map<string, bool>, key: string, flag: bool, other: string)
    ensures StoredFlag(store[key := flag], key) == flag
    ensures other != key ==> StoredFlag(store[key := flag], other) == StoredFlag(store, other)
  {
  }
}
