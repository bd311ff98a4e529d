/**
 Partition keys of the diagnostics tables: a host hash and a tick count, both padded to 19 digits.
 */
module PartitionKeys {
  import opened Text
  import opened Calendar
  import opened StorageKeys

  const WORD: nat := 0x1_0000_0000_0000_0000
  const BUCKETS: nat := 100
  const TICKS_PER_SECOND: nat := 10000000

  /** The unreduced base-37 polynomial of a host name. */
  function Polynomial(s: string): nat
  {
    if s == "" then 0 else Polynomial(s[..|s| - 1]) * 37 + s[|s| - 1] as nat
  }

  /** The hash as one reduction of the whole polynomial. */
  function HostHash(identity: string): nat
  {
    Polynomial(identity) % WORD % BUCKETS
  }

  lemma ReduceStep(a: nat, c: nat)
    ensures (a % WORD * 37 + c) % WORD == (a * 37 + c) % WORD
  {
    var q := a / WORD;
    assert a * 37 + c == (a % WORD * 37 + c) + q * 37 * WORD;
    ModuloShift(a % WORD * 37 + c, q * 37);
  }

  lemma {:induction false} ModuloShift(x: nat, k: nat)
    ensures (x + k * WORD) % WORD == x % WORD
    decreases k
  {
    if k > 0 {
      ModuloShift(x + WORD, k - 1);
      assert x + WORD + (k - 1) * WORD == x + k * WORD;
      assert (x + WORD) % WORD == x % WORD;
    }
  }

  /** `easyHash`: reducing after every character is reducing the whole polynomial once. */
  method EasyHash(s: string) returns (h: nat)
    ensures h == HostHash(s)
  {
    var strHash: nat := 0;
    for i := 0 to |s|
      invariant strHash == Polynomial(s[..i]) % WORD
    {
      ghost var before := Polynomial(s[..i]);
      assert s[..i + 1][..i] == s[..i];
      ReduceStep(before, s[i] as nat);
      strHash := strHash * 37 + s[i] as nat;
      strHash := strHash % WORD;
    }
    assert s[..|s|] == s;
    h := strHash % BUCKETS;
  }

  /** The word size shows through: 2^64 is not a multiple of 100, so only some names hash to Polynomial % 100. */
  lemma HashDropsHighWords(s: string)
    ensures HostHash(s) == Polynomial(s) % BUCKETS <==> Polynomial(s) / WORD % 25 == 0
  {
    HighWordMod(Polynomial(s) / WORD, Polynomial(s) % WORD);
    assert Polynomial(s) == Polynomial(s) / WORD * WORD + Polynomial(s) % WORD;
  }

  lemma HighWordMod(q: nat, r: nat)
    ensures r % BUCKETS == (q * WORD + r) % BUCKETS <==> q % 25 == 0
  {
    var x := 184467440737095516 * q;
    assert q * WORD + r == 100 * x + (16 * q + r);
    assert (q * WORD + r) % 100 == (16 * q + r) % 100;
    var u, v := q / 25, q % 25;
    assert 16 * q + r == 100 * (4 * u) + (16 * v + r);
    assert (16 * q + r) % 100 == (16 * v + r) % 100;
  }

  lemma PolynomialOf(s: string, c: char, t: string, p: nat)
    requires t == s + [c] && Polynomial(s) == p
    ensures Polynomial(t) == p * 37 + c as nat
  {
    assert t[..|s|] == s;
  }

  /** A host name whose hash is not its polynomial modulo 100. */
  lemma HashOfWebServer()
    ensures HostHash("web-server-01") == 64 && Polynomial("web-server-01") % BUCKETS == 52
  {
    PolynomialOf("", 'w', "w", 0);
    PolynomialOf("w", 'e', "we", 119);
    PolynomialOf("we", 'b', "web", 4504);
    PolynomialOf("web", '-', "web-", 166746);
    PolynomialOf("web-", 's', "web-s", 6169647);
    PolynomialOf("web-s", 'e', "web-se", 228277054);
    PolynomialOf("web-se", 'r', "web-ser", 8446251099);
    PolynomialOf("web-ser", 'v', "web-serv", 312511290777);
    PolynomialOf("web-serv", 'e', "web-serve", 11562917758867);
    PolynomialOf("web-serve", 'r', "web-server", 427827957078180);
    PolynomialOf("web-server", '-', "web-server-", 15829634411892774);
    PolynomialOf("web-server-", '0', "web-server-0", 585696473240032683);
    PolynomialOf("web-server-0", '1', "web-server-01", 21670769509881209319);
    assert Polynomial("web-server-01") == 801818471865604744852;
    assert 801818471865604744852 == 43 * WORD + 8608476696094025364;
    ModuloShift(8608476696094025364, 43);
  }

  /** `getMDSTimestamp`: ticks of 100 ns since 0001-01-01. */
  function MdsTimestamp(t: nat): nat
  {
    (t + DaysBeforeYear(EPOCH_YEAR) * 86400) * TICKS_PER_SECOND
  }

  /** Ten million ticks a second, from the tick count of the epoch on. */
  lemma TicksCount(t: nat)
    ensures MdsTimestamp(t) == 621_355_968_000_000_000 + 10_000_000 * t
  {
    assert DaysBeforeYear(EPOCH_YEAR) == EPOCH_DAY;
  }

  /** Read in minutes, the ticks name the same civil time as the calendar. */
  lemma TicksOfCivilTime(t: nat)
    ensures Valid(GmTime(t))
    ensures MdsTimestamp(t) / (60 * TICKS_PER_SECOND) == MinutesOf(GmTime(t)) + EPOCH_DAY * 1440
  {
    GmTimeInverse(t);
    assert DaysBeforeYear(EPOCH_YEAR) == EPOCH_DAY;
    MinutesOfTicks(t + EPOCH_DAY * 86400);
  }

  lemma MinutesOfTicks(seconds: nat)
    ensures seconds * TICKS_PER_SECOND / (60 * TICKS_PER_SECOND) == seconds / 60
  {
    var q, r := seconds / 60, seconds % 60;
    assert seconds * 10000000 == q * 600000000 + r * 10000000;
  }

  function PartitionKey(hash: nat, ticks: nat): string
  {
    Pad(hash, 19) + ("___" + Pad(ticks, 19))
  }

  lemma Pow10Nineteen()
    ensures Pow10(19) == 10_000_000_000_000_000_000
  {
    assert Pow10(4) == 10_000;
    assert Pow10(8) == 100_000_000;
    assert Pow10(12) == 1_000_000_000_000;
    assert Pow10(16) == 10_000_000_000_000_000;
  }

  /** Keys compare as (hash, ticks) pairs do. */
  lemma PartitionKeyOrder(h1: nat, t1: nat, h2: nat, t2: nat)
    requires h1 < Pow10(19) && t1 < Pow10(19) && h2 < Pow10(19) && t2 < Pow10(19)
    ensures LexLess(PartitionKey(h1, t1), PartitionKey(h2, t2)) <==> h1 < h2 || (h1 == h2 && t1 < t2)
    ensures PartitionKey(h1, t1) == PartitionKey(h2, t2) <==> h1 == h2 && t1 == t2
  {
    FieldOrder(h1, h2, 19);
    FieldOrder(t1, t2, 19);
    LexConcat("___", "___", Pad(t1, 19), Pad(t2, 19));
    LexConcat(Pad(h1, 19), Pad(h2, 19), "___" + Pad(t1, 19), "___" + Pad(t2, 19));
  }

  /** `[startKey, endKey)` of a host selects the rows with its hash and a tick count in the window, and no others. */
  lemma RangeSelectsHostAndTicks(hash: nat, start: nat, end: nat, rowHash: nat, rowTicks: nat)
    requires hash < BUCKETS && rowHash < BUCKETS
    requires start < Pow10(19) && end < Pow10(19) && rowTicks < Pow10(19)
    ensures InKeyRange(PartitionKey(rowHash, rowTicks), PartitionKey(hash, start), PartitionKey(hash, end))
            <==> rowHash == hash && start <= rowTicks < end
  {
    Pow10Nineteen();
    PartitionKeyOrder(hash, start, rowHash, rowTicks);
    PartitionKeyOrder(rowHash, rowTicks, hash, end);
  }

  /** Every date the clock can name has few enough ticks to fit its field, and ticks order as seconds. */
  lemma TicksFit(s: nat, t: nat)
    requires s < YEAR_10000 && t < YEAR_10000
    ensures MdsTimestamp(t) < Pow10(19)
    ensures MdsTimestamp(s) < MdsTimestamp(t) <==> s < t
  {
    Pow10Nineteen();
    assert DaysBeforeYear(EPOCH_YEAR) == EPOCH_DAY;
  }

  /** `getAzureDiagnosticKeyRange` for two hosts: a row of the one is in the other's range iff hashes meet and time fits. */
  lemma DiagnosticRange(host: string, other: string, start: nat, end: nat, t: nat)
    requires start < YEAR_10000 && end < YEAR_10000 && t < YEAR_10000
    ensures InKeyRange(PartitionKey(HostHash(other), MdsTimestamp(t)),
                       PartitionKey(HostHash(host), MdsTimestamp(start)), PartitionKey(HostHash(host), MdsTimestamp(end)))
            <==> HostHash(other) == HostHash(host) && start <= t < end
  {
    TicksFit(t, start);
    TicksFit(start, t);
    TicksFit(t, end);
    RangeSelectsHostAndTicks(HostHash(host), MdsTimestamp(start), MdsTimestamp(end), HostHash(other), MdsTimestamp(t));
  }

  // ---------- Keys by their characters ----------

  /** Nineteen digits, three underscores, nineteen digits. */
  predicate IsPartitionKey(key: string)
  {
    |key| == 41 && AllDigits(key[..19]) && key[19..22] == "___" && AllDigits(key[22..])
  }

  /** `getMDSPartitionKey` writes the hash and the ticks into the two fields. */
  lemma PartitionKeyReads(hash: nat, ticks: nat)
    requires hash < Pow10(19) && ticks < Pow10(19)
    ensures var key := PartitionKey(hash, ticks);
            IsPartitionKey(key) && Value(key[..19]) == hash && Value(key[22..]) == ticks
  {
    PadWidth(hash, 19);
    PadWidth(ticks, 19);
    ValueOfPad(hash, 19);
    ValueOfPad(ticks, 19);
    var key := PartitionKey(hash, ticks);
    assert key[..19] == Pad(hash, 19) && key[19..22] == "___" && key[22..] == Pad(ticks, 19);
  }

  /** A row, whoever wrote its key, is in a host's range exactly if its fields are the hash and ticks in the window. */
  lemma RangeSelectsPartitionKeys(key: string, hash: nat, start: nat, end: nat)
    requires IsPartitionKey(key) && hash < BUCKETS && start < Pow10(19) && end < Pow10(19)
    ensures InKeyRange(key, PartitionKey(hash, start), PartitionKey(hash, end))
            <==> Value(key[..19]) == hash && start <= Value(key[22..]) < end
  {
    Pow10Nineteen();
    PadOfValue(key[..19], 19);
    PadOfValue(key[22..], 19);
    ValueFits(key[..19], 19);
    ValueFits(key[22..], 19);
    assert key == key[..19] + ("___" + key[22..]);
    PartitionKeyOrder(hash, start, Value(key[..19]), Value(key[22..]));
    PartitionKeyOrder(Value(key[..19]), Value(key[22..]), hash, end);
  }
}
