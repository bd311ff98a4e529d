/**
 The `yyyymmddThhmm` keys of the storage analytics tables and the range filter over them.
 */
module StorageKeys {
  import opened Text
  import opened Calendar

  /** `getStorageTimestamp` on a broken-down time. */
  function CivilKey(c: Civil): string
  {
    Pad(c.year, 4) + (Pad(c.month, 2) + (Pad(c.day, 2) + ("T" + (Pad(c.hour, 2) + Pad(c.minute, 2)))))
  }

  function StorageTimestamp(t: nat): string
  {
    CivilKey(GmTime(t))
  }

  /** The table query `PartitionKey ge start and PartitionKey lt end`. */
  predicate InKeyRange(key: string, startKey: string, endKey: string)
  {
    LexLeq(startKey, key) && LexLess(key, endKey)
  }

  lemma CivilKeyOrder(a: Civil, b: Civil)
    requires Valid(a) && Valid(b) && a.year < 10000 && b.year < 10000
    ensures LexLess(CivilKey(a), CivilKey(b)) <==> Before(a, b)
    ensures CivilKey(a) == CivilKey(b) <==> a == b
  {
    assert Pow10(2) == 100 && Pow10(4) == 10000;
    FieldOrder(a.year, b.year, 4);
    FieldOrder(a.month, b.month, 2);
    FieldOrder(a.day, b.day, 2);
    FieldOrder(a.hour, b.hour, 2);
    FieldOrder(a.minute, b.minute, 2);
    var at, bt := Pad(a.hour, 2) + Pad(a.minute, 2), Pad(b.hour, 2) + Pad(b.minute, 2);
    LexConcat(Pad(a.hour, 2), Pad(b.hour, 2), Pad(a.minute, 2), Pad(b.minute, 2));
    LexConcat("T", "T", at, bt);
    LexConcat(Pad(a.day, 2), Pad(b.day, 2), "T" + at, "T" + bt);
    var ad, bd := Pad(a.day, 2) + ("T" + at), Pad(b.day, 2) + ("T" + bt);
    LexConcat(Pad(a.month, 2), Pad(b.month, 2), ad, bd);
    LexConcat(Pad(a.year, 4), Pad(b.year, 4), Pad(a.month, 2) + ad, Pad(b.month, 2) + bd);
  }

  lemma FieldOrder(m: nat, n: nat, w: nat)
    requires w >= 1 && m < Pow10(w) && n < Pow10(w)
    ensures |Pad(m, w)| == |Pad(n, w)| == w
    ensures LexLess(Pad(m, w), Pad(n, w)) <==> m < n
    ensures Pad(m, w) == Pad(n, w) <==> m == n
  {
    PadOrder(m, n, w);
    PadWidth(m, w);
    PadWidth(n, w);
  }

  /** String order of the keys is the order of the minutes, up to the year 10000. */
  lemma TimestampOrder(t1: nat, t2: nat)
    requires t1 < YEAR_10000 && t2 < YEAR_10000
    ensures LexLess(StorageTimestamp(t1), StorageTimestamp(t2)) <==> t1 / 60 < t2 / 60
    ensures StorageTimestamp(t1) == StorageTimestamp(t2) <==> t1 / 60 == t2 / 60
  {
    GmTimeInverse(t1);
    GmTimeInverse(t2);
    YearFits(t1);
    YearFits(t2);
    GmTimeOrder(t1, t2);
    CivilKeyOrder(GmTime(t1), GmTime(t2));
  }

  /** The query returns exactly the rows whose minute lies in the window. */
  lemma RangeSelectsMinutes(t: nat, start: nat, end: nat)
    requires t < YEAR_10000 && start < YEAR_10000 && end < YEAR_10000
    ensures InKeyRange(StorageTimestamp(t), StorageTimestamp(start), StorageTimestamp(end)) <==> start / 60 <= t / 60 < end / 60
  {
    TimestampOrder(start, t);
    TimestampOrder(t, end);
  }

  // ---------- Keys by their characters ----------

  /** Thirteen characters: `yyyymmdd`, a T and `hhmm`. */
  predicate IsKey(key: string)
  {
    |key| == 13 && key[8] == 'T' && AllDigits(key[..8]) && AllDigits(key[9..])
  }

  lemma KeyDigits(key: string)
    requires IsKey(key)
    ensures AllDigits(key[..4]) && AllDigits(key[4..6]) && AllDigits(key[6..8]) && AllDigits(key[9..11]) && AllDigits(key[11..])
  {
    assert forall i | 0 <= i < 8 :: key[i] == key[..8][i];
    assert forall i | 9 <= i < 13 :: key[i] == key[9..][i - 9];
  }

  /** The civil time written in a key. */
  function KeyTime(key: string): Civil
    requires IsKey(key)
  {
    KeyDigits(key);
    Civil(Value(key[..4]), Value(key[4..6]), Value(key[6..8]), Value(key[9..11]), Value(key[11..]))
  }

  lemma CivilKeyReads(c: Civil)
    requires Valid(c) && c.year < 10000
    ensures IsKey(CivilKey(c)) && KeyTime(CivilKey(c)) == c
  {
    assert Pow10(2) == 100 && Pow10(4) == 10000;
    PadWidth(c.year, 4);
    PadWidth(c.month, 2);
    PadWidth(c.day, 2);
    PadWidth(c.hour, 2);
    PadWidth(c.minute, 2);
    ValueOfPad(c.year, 4);
    ValueOfPad(c.month, 2);
    ValueOfPad(c.day, 2);
    ValueOfPad(c.hour, 2);
    ValueOfPad(c.minute, 2);
    KeyPieces(CivilKey(c), Pad(c.year, 4), Pad(c.month, 2), Pad(c.day, 2), Pad(c.hour, 2), Pad(c.minute, 2));
  }

  lemma KeyPieces(key: string, y: string, m: string, d: string, h: string, n: string)
    requires key == y + (m + (d + ("T" + (h + n)))) && |y| == 4 && |m| == |d| == |h| == |n| == 2
    requires AllDigits(y) && AllDigits(m) && AllDigits(d) && AllDigits(h) && AllDigits(n)
    ensures IsKey(key) && key[..4] == y && key[4..6] == m && key[6..8] == d && key[9..11] == h && key[11..] == n
  {
    assert key[..8] == y + m + d && key[9..] == h + n;
  }

  /** The key of a time is `yyyymmddThhmm`, and its digits name the minute. */
  lemma TimestampReads(t: nat)
    requires t < YEAR_10000
    ensures var key := StorageTimestamp(t); IsKey(key) && Valid(KeyTime(key)) && MinutesOf(KeyTime(key)) == t / 60
  {
    GmTimeInverse(t);
    YearFits(t);
    CivilKeyReads(GmTime(t));
  }

  lemma {:induction false} ValueFits(s: string, w: nat)
    requires AllDigits(s) && |s| == w
    ensures Value(s) < Pow10(w)
  {
    if s != "" {
      ValueFits(s[..w - 1], w - 1);
    }
  }

  /** A number of that many digits is written in one way. */
  lemma PadOfValue(s: string, w: nat)
    requires AllDigits(s) && |s| == w && w >= 1
    ensures Pad(Value(s), w) == s
  {
    ValueFits(s, w);
    PadWidth(Value(s), w);
    ValueOfPad(Value(s), w);
    LexIsNumeric(Pad(Value(s), w), s);
  }

  lemma KeyIsCivilKey(key: string)
    requires IsKey(key)
    ensures CivilKey(KeyTime(key)) == key && KeyTime(key).year < 10000
  {
    KeyDigits(key);
    PadOfValue(key[..4], 4);
    PadOfValue(key[4..6], 2);
    PadOfValue(key[6..8], 2);
    PadOfValue(key[9..11], 2);
    PadOfValue(key[11..], 2);
    ValueFits(key[..4], 4);
    assert Pow10(4) == 10000;
    assert key == key[..4] + (key[4..6] + (key[6..8] + ("T" + (key[9..11] + key[11..]))));
  }

  lemma KeysCompare(a: string, b: string)
    requires IsKey(a) && IsKey(b) && Valid(KeyTime(a)) && Valid(KeyTime(b))
    ensures LexLess(a, b) <==> MinutesOf(KeyTime(a)) < MinutesOf(KeyTime(b))
    ensures a == b <==> MinutesOf(KeyTime(a)) == MinutesOf(KeyTime(b))
  {
    KeyIsCivilKey(a);
    KeyIsCivilKey(b);
    CivilKeyOrder(KeyTime(a), KeyTime(b));
    CivilOrder(KeyTime(a), KeyTime(b));
  }

  /** The query returns a row, whoever wrote its key, exactly if the minute it names lies in the window. */
  lemma RangeSelectsKeys(key: string, start: nat, end: nat)
    requires IsKey(key) && Valid(KeyTime(key)) && start < YEAR_10000 && end < YEAR_10000
    ensures InKeyRange(key, StorageTimestamp(start), StorageTimestamp(end))
            <==> start / 60 <= MinutesOf(KeyTime(key)) < end / 60
  {
    TimestampReads(start);
    TimestampReads(end);
    KeysCompare(StorageTimestamp(start), key);
    KeysCompare(key, StorageTimestamp(end));
  }
}
