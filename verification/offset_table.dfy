/**
  The fixed table that maps a UTC-offset label (`UTC+05:30`) to an IANA time-zone
  name (`Asia/Kolkata`), as the home page's `timezoneMap` object literal writes it,
  and the exact-string lookup `timezoneMap[offset]` performed on it.
 */
module OffsetTable {
  import opened Wrappers
  import opened ObjectLiteral

  /** The 37 entries of the object literal, in source order: offset label, zone name. */
  const Entries: seq<(string, string)> := [
    ("UTC+05:30", "Asia/Kolkata"),
    ("UTC-05:00", "America/New_York"),
    ("UTC+00:00", "Europe/London"),
    ("UTC+09:00", "Asia/Tokyo"),
    ("UTC-04:00", "America/Caracas"),
    ("UTC-03:00", "America/Sao_Paulo"),
    ("UTC-06:00", "America/Chicago"),
    ("UTC-07:00", "America/Denver"),
    ("UTC-08:00", "America/Los_Angeles"),
    ("UTC-09:00", "America/Anchorage"),
    ("UTC-10:00", "Pacific/Honolulu"),
    ("UTC+01:00", "Europe/Berlin"),
    ("UTC+02:00", "Africa/Cairo"),
    ("UTC+03:00", "Europe/Moscow"),
    ("UTC+04:00", "Asia/Dubai"),
    ("UTC+06:00", "Asia/Dhaka"),
    ("UTC+07:00", "Asia/Bangkok"),
    ("UTC+08:00", "Asia/Shanghai"),
    ("UTC+10:00", "Australia/Sydney"),
    ("UTC+11:00", "Pacific/Guadalcanal"),
    ("UTC+12:00", "Pacific/Auckland"),
    ("UTC-03:30", "America/St_Johns"),
    ("UTC-02:00", "America/Noronha"),
    ("UTC-01:00", "Atlantic/Cape_Verde"),
    ("UTC+03:30", "Asia/Tehran"),
    ("UTC+04:30", "Asia/Kabul"),
    ("UTC+05:00", "Asia/Karachi"),
    ("UTC+05:45", "Asia/Kathmandu"),
    ("UTC+06:30", "Asia/Yangon"),
    ("UTC+08:45", "Australia/Eucla"),
    ("UTC+09:30", "Australia/Adelaide"),
    ("UTC+10:30", "Australia/Lord_Howe"),
    ("UTC+12:45", "Pacific/Chatham"),
    ("UTC+13:00", "Pacific/Apia"),
    ("UTC+14:00", "Pacific/Kiritimati"),
    ("UTC-11:00", "Pacific/Midway"),
    ("UTC-12:00", "Pacific/Wake")
  ]

  /** The table the component holds. */
  const Table: map<string, string> := BuildMap(Entries)

  /**
    The same table written as a `switch` over the label: the position in the
    literal of the entry with key `k`, or -1 when no entry has that key.
   */
  function PositionOf(k: string): (p: int)
    ensures -1 <= p < |Entries|
  {
    match k
    case "UTC+05:30" => 0
    case "UTC-05:00" => 1
    case "UTC+00:00" => 2
    case "UTC+09:00" => 3
    case "UTC-04:00" => 4
    case "UTC-03:00" => 5
    case "UTC-06:00" => 6
    case "UTC-07:00" => 7
    case "UTC-08:00" => 8
    case "UTC-09:00" => 9
    case "UTC-10:00" => 10
    case "UTC+01:00" => 11
    case "UTC+02:00" => 12
    case "UTC+03:00" => 13
    case "UTC+04:00" => 14
    case "UTC+06:00" => 15
    case "UTC+07:00" => 16
    case "UTC+08:00" => 17
    case "UTC+10:00" => 18
    case "UTC+11:00" => 19
    case "UTC+12:00" => 20
    case "UTC-03:30" => 21
    case "UTC-02:00" => 22
    case "UTC-01:00" => 23
    case "UTC+03:30" => 24
    case "UTC+04:30" => 25
    case "UTC+05:00" => 26
    case "UTC+05:45" => 27
    case "UTC+06:30" => 28
    case "UTC+08:45" => 29
    case "UTC+09:30" => 30
    case "UTC+10:30" => 31
    case "UTC+12:45" => 32
    case "UTC+13:00" => 33
    case "UTC+14:00" => 34
    case "UTC-11:00" => 35
    case "UTC-12:00" => 36
    case _ => -1
  }

  /** Every entry's key leads the switch back to that entry's own position. */
  lemma PositionsAgree()
    ensures |Entries| == 37
    ensures forall i :: 0 <= i < |Entries| ==> PositionOf(Entries[i].0) == i
  {
  }

  predicate IsDigit(c: char) {
    '0' <= c <= '9'
  }

  /** The shape of every key: `UTC`, a sign, two digits, a colon, two digits. */
  predicate IsOffsetKey(k: string) {
    && |k| == 9
    && k[0] == 'U' && k[1] == 'T' && k[2] == 'C'
    && (k[3] == '+' || k[3] == '-')
    && IsDigit(k[4]) && IsDigit(k[5])
    && k[6] == ':'
    && IsDigit(k[7]) && IsDigit(k[8])
  }

  // The shape check is split in three so that each proof stays small.

  lemma EntryKeysWellFormedFirst()
    ensures |Entries| == 37
    ensures forall i :: 0 <= i < 12 ==> IsOffsetKey(Entries[i].0)
  {
  }

  lemma EntryKeysWellFormedMiddle()
    ensures forall i :: 12 <= i < 24 ==> IsOffsetKey(Entries[i].0)
  {
  }

  lemma EntryKeysWellFormedLast()
    ensures forall i :: 24 <= i < 37 ==> IsOffsetKey(Entries[i].0)
  {
  }

  /** No entry binds its key to the empty zone name. */
  lemma EntryZonesNonEmpty()
    ensures forall i :: 0 <= i < |Entries| ==> Entries[i].1 != ""
  {
  }

  /**
    The table has exactly 37 keys, no two alike, and every key resolves to the
    zone written beside it in the literal.
   */
  lemma TableAsWritten()
    ensures DistinctKeys(Entries)
    ensures |Table| == |Entries| == 37
    ensures forall i :: 0 <= i < |Entries| ==> Entries[i].0 in Table && Table[Entries[i].0] == Entries[i].1
  {
    PositionsAgree();
    SizeOfDistinct(Entries);
    ValuesOfDistinct(Entries);
  }

  /** The switch finds only keys of the literal. */
  lemma SwitchFindsEntries()
    ensures forall k :: PositionOf(k) >= 0 ==> Entries[PositionOf(k)].0 == k
  {
  }

  /** The object literal and the switch agree on every string: same keys, same zones. */
  lemma TableIsSwitch()
    ensures forall k :: k in Table <==> PositionOf(k) >= 0
    ensures forall k :: k in Table ==> Table[k] == Entries[PositionOf(k)].1
  {
    PositionsAgree();
    SwitchFindsEntries();
    forall k | k in Table ensures PositionOf(k) >= 0 && Table[k] == Entries[PositionOf(k)].1 {
      var i :| 0 <= i < |Entries| && Entries[i] == (k, Table[k]);
    }
  }

  /** Every key of the table has the shape `UTC±HH:MM`. */
  lemma TableKeysWellFormed()
    ensures forall k :: k in Table ==> IsOffsetKey(k)
  {
    EntryKeysWellFormedFirst();
    EntryKeysWellFormedMiddle();
    EntryKeysWellFormedLast();
    forall k | k in Table ensures IsOffsetKey(k) {
      var i :| 0 <= i < |Entries| && Entries[i] == (k, Table[k]);
    }
  }

  /** No zone name in the table is the empty string, so a hit is always truthy. */
  lemma ZonesNonEmpty()
    ensures forall k :: k in Table ==> Table[k] != ""
  {
    EntryZonesNonEmpty();
    forall k | k in Table ensures Table[k] != "" {
      var i :| 0 <= i < |Entries| && Entries[i] == (k, Table[k]);
    }
  }

  /**
    `timezoneMap[offset]` followed by the truthiness test on its result. A missing
    first offset (`timezones[0]` is `undefined`) is looked up as the key
    `"undefined"`, which the table does not hold. A miss is an expected outcome.
   */
  function Resolve(offset: Option<string>): (zone: Option<string>)
    ensures zone.Some? ==> offset.Some? && offset.value in Table && zone.value == Table[offset.value]
    ensures offset.Some? && offset.value in Table && Table[offset.value] != "" ==> zone.Some?
  {
    match offset
    case None => None
    case Some(k) => if k in Table && Table[k] != "" then Some(Table[k]) else None
  }

  /** Since no zone is empty, the lookup succeeds exactly on the keys of the table. */
  lemma ResolveHitsExactlyKeys()
    ensures forall k :: Resolve(Some(k)).Some? <==> k in Table
    ensures forall k :: k in Table ==> Resolve(Some(k)) == Some(Table[k])
  {
    ZonesNonEmpty();
  }

  /** Every label of the literal resolves to the zone written beside it. */
  lemma EntryResolves(i: int, offset: string, zone: string)
    requires 0 <= i < |Entries| && Entries[i] == (offset, zone)
    ensures Resolve(Some(offset)) == Some(zone)
  {
    TableAsWritten();
    ZonesNonEmpty();
  }

  /** A label the switch lists resolves to the zone of the entry it points at. */
  lemma ListedResolves(k: string)
    requires PositionOf(k) >= 0
    ensures Resolve(Some(k)) == Some(Entries[PositionOf(k)].1)
  {
    TableIsSwitch();
    ZonesNonEmpty();
  }

  /** A label the switch does not list resolves to nothing. */
  lemma UnlistedMisses(k: string)
    requires PositionOf(k) == -1
    ensures Resolve(Some(k)) == None
  {
    TableIsSwitch();
  }

  /** India's offset resolves to the zone written beside it. */
  lemma ResolveIndia()
    ensures Resolve(Some("UTC+05:30")) == Some("Asia/Kolkata")
  {
    EntryResolves(0, "UTC+05:30", "Asia/Kolkata");
  }

  /** The Chatham Islands' quarter-hour offset resolves to the zone written beside it. */
  lemma ResolveChatham()
    ensures Resolve(Some("UTC+12:45")) == Some("Pacific/Chatham")
  {
    EntryResolves(32, "UTC+12:45", "Pacific/Chatham");
  }

  /** Eastern Time in the USA resolves to the zone written beside it. */
  lemma ResolveNewYork()
    ensures Resolve(Some("UTC-05:00")) == Some("America/New_York")
  {
    EntryResolves(1, "UTC-05:00", "America/New_York");
  }

  /** Japan's offset resolves to the zone written beside it. */
  lemma ResolveTokyo()
    ensures Resolve(Some("UTC+09:00")) == Some("Asia/Tokyo")
  {
    EntryResolves(3, "UTC+09:00", "Asia/Tokyo");
  }

  /** An offset outside the table, and a missing first offset, resolve to nothing. */
  lemma ResolveOutsideTable()
    ensures Resolve(Some("UTC+99:00")) == None
    ensures Resolve(None) == None
  {
    UnlistedMisses("UTC+99:00");
  }

  /**
    Lookup is by exact string: `UTC-00:00` denotes the same offset as the key
    `UTC+00:00`, yet it is not found.
   */
  lemma ResolveIgnoresSignedZero()
    ensures Resolve(Some("UTC-00:00")) == None
  {
    UnlistedMisses("UTC-00:00");
  }

  /** Likewise `UTC+5:30` is not found, although it denotes the offset of `UTC+05:30`. */
  lemma ResolveNeedsPadding()
    ensures Resolve(Some("UTC+5:30")) == None
  {
    UnlistedMisses("UTC+5:30");
  }
}
