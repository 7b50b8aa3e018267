/** The shared workload of every benchmark: a string-to-string cache whose ten keys
    "hello0".."hello9" hold decimal counters, the `calc` step that bumps each counter,
    and `checkWork`, which compares every counter with the expected total. */
module BenchCommon {
  import opened Decimal

  /** Units of work per benchmark run. */
  const MaxIter: nat := 1000
  /** Keys touched by one `calc`. */
  const NumCalc: nat := 10
  /** Prefix of every cache key. */
  const CacheKey: string := "hello"

  /** `get_key(i)`: the prefix followed by the decimal digits of i. */
  function Key(i: int): string {
    CacheKey + IntToString(i)
  }

  /** Different indices give different keys, so the ten keys of `calc` are distinct. */
  lemma KeyInjective(i: int, j: int)
    ensures Key(i) == Key(j) ==> i == j
  {
    if Key(i) == Key(j) {
      assert IntToString(i) == Key(i)[|CacheKey|..];
      assert IntToString(j) == Key(j)[|CacheKey|..];
      IntToStringInjective(i, j);
    }
  }

  /** The keys `calc` and `checkWork` visit: the prefix followed by one decimal digit. */
  predicate IsCalcKey(k: string) {
    |k| == |CacheKey| + 1 && k[..|CacheKey|] == CacheKey && IsDigit(k[|CacheKey|])
  }

  /** IsCalcKey holds exactly of Key(0)..Key(NumCalc - 1). */
  lemma CalcKeyIff(k: string)
    ensures IsCalcKey(k) <==> exists i :: 0 <= i < NumCalc && k == Key(i)
  {
    if IsCalcKey(k) {
      var d := DigitValue(k[|CacheKey|]);
      assert k == Key(d);
    }
    forall i | 0 <= i < NumCalc && k == Key(i)
      ensures IsCalcKey(k)
    {
      assert k == CacheKey + [DigitChar(i)];
    }
  }

  /** What `cache[key]` yields: the stored value, or the empty string it inserts. */
  function Lookup(m: map<string, string>, k: string): string {
    if k in m then m[k] else ""
  }

  /** A value `calc` can bump: empty, or a decimal that stoi accepts. */
  predicate ValidCounter(s: string) {
    s == "" || Stoi(s).Some?
  }

  /** The count a value stands for: zero when empty, else what stoi reads (zero for a
      value stoi rejects, which `calc` is never handed). */
  function CountOf(s: string): int {
    if s == "" then 0 else match Stoi(s) case Some(v) => v case None => 0
  }

  /** Every counter `calc` visits is valid and can be bumped k times without
      leaving the range of int. */
  predicate ReadyFor(m: map<string, string>, k: nat) {
    forall i {:trigger Lookup(m, Key(i))} :: 0 <= i < NumCalc ==>
      ValidCounter(Lookup(m, Key(i))) && CountOf(Lookup(m, Key(i))) + k <= IntMax
  }

  /** The new value of one counter: "1" for an empty value, else to_string(stoi(old) + 1). */
  function Bump(s: string): string
    requires ValidCounter(s) && CountOf(s) < IntMax
  {
    if |s| == 0 then "1" else IntToString(Stoi(s).value + 1)
  }

  /** What to_string wrote is a valid counter standing for the number written. */
  lemma CountOfToString(n: int)
    requires IntMin <= n <= IntMax
    ensures ValidCounter(IntToString(n)) && CountOf(IntToString(n)) == n
  {
    StoiToString(n);
  }

  /** Bumping a counter writes its count plus one, which reads back as that count. */
  lemma BumpCount(s: string)
    requires ValidCounter(s) && CountOf(s) < IntMax
    ensures Bump(s) == IntToString(CountOf(s) + 1)
    ensures ValidCounter(Bump(s)) && CountOf(Bump(s)) == CountOf(s) + 1
  {
    CountOfToString(CountOf(s) + 1);
  }

  /** Key(i) for i in 0..NumCalc is one of the keys `calc` visits. */
  lemma KeyIsCalcKey(i: int)
    requires 0 <= i < NumCalc
    ensures IsCalcKey(Key(i))
  {
    assert Key(i) == CacheKey + [DigitChar(i)];
  }

  /** The counters `calc` has yet to visit, from the i-th on, can each be bumped once. */
  predicate ReadyFrom(m: map<string, string>, i: nat) {
    forall j :: i <= j < NumCalc ==>
      ValidCounter(Lookup(m, Key(j))) && CountOf(Lookup(m, Key(j))) < IntMax
  }

  /** One iteration of the loop in `calc`: bump the counter under Key(i). */
  function Step(m: map<string, string>, i: nat): map<string, string>
    requires i < NumCalc && ReadyFrom(m, i)
  {
    m[Key(i) := Bump(Lookup(m, Key(i)))]
  }

  /** The iterations of the loop in `calc` from the i-th to the last, applied to m. */
  function CalcFrom(m: map<string, string>, i: nat): map<string, string>
    requires i <= NumCalc && ReadyFrom(m, i)
    decreases NumCalc - i
  {
    if i == NumCalc then m
    else
      assert ReadyFrom(Step(m, i), i + 1) by {
        forall j | i + 1 <= j < NumCalc
          ensures Lookup(Step(m, i), Key(j)) == Lookup(m, Key(j))
        {
          KeyInjective(i, j);
        }
      }
      CalcFrom(Step(m, i), i + 1)
  }

  /** The effect of one `calc` on the cache. */
  function CalcSpec(m: map<string, string>): map<string, string>
    requires ReadyFor(m, 1)
  {
    CalcFrom(m, 0)
  }

  /** One iteration of the loop in `calc` leaves the later counters as they were, so the
      rest of the loop can run, and together they are the loop from the i-th iteration. */
  lemma CalcFromStep(m: map<string, string>, i: nat)
    requires i < NumCalc && ReadyFrom(m, i)
    ensures forall j :: i < j < NumCalc ==> Lookup(Step(m, i), Key(j)) == Lookup(m, Key(j))
    ensures ReadyFrom(Step(m, i), i + 1)
    ensures CalcFrom(Step(m, i), i + 1) == CalcFrom(m, i)
  {
    forall j | i + 1 <= j < NumCalc
      ensures Lookup(Step(m, i), Key(j)) == Lookup(m, Key(j))
    {
      KeyInjective(i, j);
    }
  }

  /** Running the loop from the i-th iteration leaves a counter already visited alone
      and bumps each of the others once. */
  lemma {:induction false} CalcFromAt(m: map<string, string>, i: nat, j: nat)
    requires i <= NumCalc && ReadyFrom(m, i) && j < NumCalc
    ensures j < i ==> (Key(j) in CalcFrom(m, i) <==> Key(j) in m)
    ensures j < i ==> Lookup(CalcFrom(m, i), Key(j)) == Lookup(m, Key(j))
    ensures i <= j ==> Key(j) in CalcFrom(m, i) && CalcFrom(m, i)[Key(j)] == Bump(Lookup(m, Key(j)))
    decreases NumCalc - i
  {
    if i < NumCalc {
      var next := Step(m, i);
      forall j' | i + 1 <= j' < NumCalc
        ensures Lookup(next, Key(j')) == Lookup(m, Key(j'))
      {
        KeyInjective(i, j');
      }
      assert CalcFrom(m, i) == CalcFrom(next, i + 1);
      KeyInjective(i, j);
      CalcFromAt(next, i + 1, j);
    }
  }

  /** Running the loop from the i-th iteration adds no key outside the ten and changes
      no entry outside them. */
  lemma {:induction false} CalcFromFrame(m: map<string, string>, i: nat)
    requires i <= NumCalc && ReadyFrom(m, i)
    ensures forall k :: k in m ==> k in CalcFrom(m, i)
    ensures forall k :: k in CalcFrom(m, i) ==> k in m || IsCalcKey(k)
    ensures forall k :: !IsCalcKey(k) ==> Lookup(CalcFrom(m, i), k) == Lookup(m, k)
    decreases NumCalc - i
  {
    if i < NumCalc {
      var next := Step(m, i);
      KeyIsCalcKey(i);
      CalcFromFrame(next, i + 1);
    }
  }

  /** One `calc` leaves each of the ten counters present and bumped, and every other
      entry as it was. */
  lemma CalcSpecEffect(m: map<string, string>)
    requires ReadyFor(m, 1)
    ensures forall k :: k in CalcSpec(m) <==> k in m || IsCalcKey(k)
    ensures forall i :: 0 <= i < NumCalc ==> Key(i) in CalcSpec(m) && CalcSpec(m)[Key(i)] == Bump(Lookup(m, Key(i)))
    ensures forall k :: !IsCalcKey(k) ==> Lookup(CalcSpec(m), k) == Lookup(m, k)
  {
    CalcFromFrame(m, 0);
    forall i | 0 <= i < NumCalc
      ensures Key(i) in CalcSpec(m) && CalcSpec(m)[Key(i)] == Bump(Lookup(m, Key(i)))
    {
      CalcFromAt(m, 0, i);
    }
    forall k | IsCalcKey(k)
      ensures k in CalcSpec(m)
    {
      CalcKeyIff(k);
    }
  }

  /** One `calc` leaves Key(i) present and bumped. */
  lemma CalcSpecAt(m: map<string, string>, i: nat)
    requires ReadyFor(m, 1) && i < NumCalc
    ensures Key(i) in CalcSpec(m) && CalcSpec(m)[Key(i)] == Bump(Lookup(m, Key(i)))
  {
    CalcFromAt(m, 0, i);
  }

  /** `cache[key]` inserts an empty value when the key is absent; overwriting the entry
      straight afterwards leaves no trace of that insertion. */
  lemma InsertThenWrite(m: map<string, string>, key: string, v: string)
    ensures (if key in m then m else m[key := ""])[key := v] == m[key := v]
  {
  }

  /** The ten keys `calc` visits, Key(0) .. Key(NumCalc - 1), as a finite set. IsCalcKey
      describes the same keys by their shape, which is how the frame lemmas speak of
      "every other key"; the closed form CalcTimes needs them as a set, to bound the
      domain of its map comprehension. CalcKeysIff links the two. */
  const CalcKeys: set<string> := set i | 0 <= i < NumCalc :: Key(i)

  lemma CalcKeysIff(k: string)
    ensures k in CalcKeys <==> IsCalcKey(k)
  {
    CalcKeyIff(k);
  }

  /** The cache after k successive `calc`s, in closed form: each of the ten counters has
      gone up by k (an absent or empty one counting as zero) and every other entry is as
      it was. */
  function CalcTimes(m: map<string, string>, k: nat): map<string, string> {
    if k == 0 then m
    else
      map key | key in m.Keys + CalcKeys ::
        if key in CalcKeys then IntToString(CountOf(Lookup(m, key)) + k) else m[key]
  }

  /** After k >= 1 calcs, Key(i) holds to_string of its old count plus k. */
  lemma CalcTimesAt(m: map<string, string>, k: nat, i: nat)
    requires k >= 1 && i < NumCalc
    ensures Key(i) in CalcTimes(m, k)
    ensures CalcTimes(m, k)[Key(i)] == IntToString(CountOf(Lookup(m, Key(i))) + k)
  {
    assert Key(i) in CalcKeys;
  }

  /** After k calcs from a cache with room for them, every one of the ten counters is
      present (once k >= 1), valid, and stands for its old count plus k; there is no other
      new key and no other entry changes. */
  lemma CalcTimesEffect(m: map<string, string>, k: nat)
    requires ReadyFor(m, k)
    ensures forall i :: 0 <= i < NumCalc ==> k >= 1 ==> Key(i) in CalcTimes(m, k)
    ensures forall i :: 0 <= i < NumCalc ==>
      ValidCounter(Lookup(CalcTimes(m, k), Key(i))) &&
      CountOf(Lookup(CalcTimes(m, k), Key(i))) == CountOf(Lookup(m, Key(i))) + k
    ensures forall key :: key in CalcTimes(m, k) <==> key in m || (k >= 1 && IsCalcKey(key))
    ensures forall key :: !IsCalcKey(key) ==> Lookup(CalcTimes(m, k), key) == Lookup(m, key)
  {
    var r := CalcTimes(m, k);
    forall i | 0 <= i < NumCalc
      ensures k >= 1 ==> Key(i) in r
      ensures ValidCounter(Lookup(r, Key(i))) && CountOf(Lookup(r, Key(i))) == CountOf(Lookup(m, Key(i))) + k
    {
      if k >= 1 {
        CalcTimesAt(m, k, i);
        CountOfToString(CountOf(Lookup(m, Key(i))) + k);
      }
    }
    forall key
      ensures key in r <==> key in m || (k >= 1 && IsCalcKey(key))
      ensures !IsCalcKey(key) ==> Lookup(r, key) == Lookup(m, key)
    {
      CalcKeysIff(key);
    }
  }

  /** Room for k calcs is room for any j <= k of them, and for the remaining k - j after
      them. */
  lemma CalcTimesHeadroom(m: map<string, string>, j: nat, k: nat)
    requires j <= k && ReadyFor(m, k)
    ensures ReadyFor(m, j) && ReadyFor(CalcTimes(m, j), k - j)
  {
    CalcTimesEffect(m, j);
  }

  /** One `calc` after k of them is k + 1 of them: the step-by-step loop of `calc` and
      the closed form agree. */
  lemma CalcTimesSucc(m: map<string, string>, k: nat)
    requires ReadyFor(m, k + 1)
    ensures ReadyFor(CalcTimes(m, k), 1)
    ensures CalcSpec(CalcTimes(m, k)) == CalcTimes(m, k + 1)
  {
    CalcTimesHeadroom(m, k, k + 1);
    var c, t := CalcSpec(CalcTimes(m, k)), CalcTimes(m, k + 1);
    forall key | key in c || key in t
      ensures key in c && key in t && c[key] == t[key]
    {
      CalcKeyIff(key);
      if IsCalcKey(key) {
        var i :| 0 <= i < NumCalc && key == Key(i);
        CalcTimesSuccCounter(m, k, i);
      } else {
        CalcTimesSuccOther(m, k, key);
      }
    }
  }

  /** CalcTimesSucc at one of the ten counters. */
  lemma CalcTimesSuccCounter(m: map<string, string>, k: nat, i: nat)
    requires ReadyFor(m, k + 1) && i < NumCalc
    ensures ReadyFor(CalcTimes(m, k), 1)
    ensures Key(i) in CalcSpec(CalcTimes(m, k)) && Key(i) in CalcTimes(m, k + 1)
    ensures CalcSpec(CalcTimes(m, k))[Key(i)] == CalcTimes(m, k + 1)[Key(i)]
  {
    CalcTimesHeadroom(m, k, k + 1);
    var p, key := CalcTimes(m, k), Key(i);
    var n := CountOf(Lookup(m, key)) + k;
    if k >= 1 {
      CalcTimesAt(m, k, i);
      CountOfToString(n);
    }
    assert CountOf(Lookup(p, key)) == n;
    BumpCount(Lookup(p, key));
    CalcSpecAt(p, i);
    assert CalcSpec(p)[key] == IntToString(n + 1);
    CalcTimesAt(m, k + 1, i);
  }

  /** CalcTimesSucc at a key outside the ten. */
  lemma CalcTimesSuccOther(m: map<string, string>, k: nat, key: string)
    requires ReadyFor(m, k + 1) && !IsCalcKey(key)
    ensures ReadyFor(CalcTimes(m, k), 1)
    ensures key in CalcSpec(CalcTimes(m, k)) <==> key in CalcTimes(m, k + 1)
    ensures key in CalcTimes(m, k + 1) ==> CalcSpec(CalcTimes(m, k))[key] == CalcTimes(m, k + 1)[key]
  {
    CalcTimesHeadroom(m, k, k + 1);
    CalcSpecEffect(CalcTimes(m, k));
    CalcKeysIff(key);
  }

  /** a calcs followed by b more are c == a + b calcs. */
  lemma CalcTimesAdd(m: map<string, string>, a: nat, b: nat, c: nat)
    requires c == a + b && ReadyFor(m, c)
    ensures CalcTimes(CalcTimes(m, a), b) == CalcTimes(m, c)
  {
    var l, r := CalcTimes(CalcTimes(m, a), b), CalcTimes(m, c);
    forall key | key in l || key in r
      ensures key in l && key in r && l[key] == r[key]
    {
      CalcTimesAddAt(m, a, b, c, key);
    }
  }

  /** CalcTimesAdd at one key. */
  lemma CalcTimesAddAt(m: map<string, string>, a: nat, b: nat, c: nat, key: string)
    requires c == a + b && ReadyFor(m, c)
    ensures key in CalcTimes(CalcTimes(m, a), b) <==> key in CalcTimes(m, c)
    ensures key in CalcTimes(m, c) ==> CalcTimes(CalcTimes(m, a), b)[key] == CalcTimes(m, c)[key]
  {
    if a == 0 {
      assert CalcTimes(m, a) == m;
      CalcTimesSameCount(m, b, c);
    } else if b == 0 {
      assert CalcTimes(CalcTimes(m, a), 0) == CalcTimes(m, a);
      CalcTimesSameCount(m, a, c);
    } else if key in CalcKeys {
      var i :| 0 <= i < NumCalc && key == Key(i);
      CalcTimesAddCounter(m, a, b, c, i);
    } else {
      CalcTimesAddOther(m, a, b, c, key);
    }
  }

  /** CalcTimesAdd at a key outside the ten. */
  lemma CalcTimesAddOther(m: map<string, string>, a: nat, b: nat, c: nat, key: string)
    requires a >= 1 && b >= 1 && c == a + b && key !in CalcKeys
    ensures key in CalcTimes(CalcTimes(m, a), b) <==> key in m
    ensures key in CalcTimes(m, c) <==> key in m
    ensures key in m ==> CalcTimes(CalcTimes(m, a), b)[key] == m[key] == CalcTimes(m, c)[key]
  {
    var p := CalcTimes(m, a);
    assert key in p <==> key in m;
    if key in m {
      assert p[key] == m[key];
    }
  }

  /** CalcTimesAdd at one of the ten counters. */
  lemma CalcTimesAddCounter(m: map<string, string>, a: nat, b: nat, c: nat, i: nat)
    requires a >= 1 && b >= 1 && c == a + b && i < NumCalc && ReadyFor(m, c)
    ensures Key(i) in CalcTimes(CalcTimes(m, a), b) && Key(i) in CalcTimes(m, c)
    ensures CalcTimes(CalcTimes(m, a), b)[Key(i)] == CalcTimes(m, c)[Key(i)]
  {
    var p, key := CalcTimes(m, a), Key(i);
    var n := CountOf(Lookup(m, key)) + a;
    assert IntMin <= n <= IntMax;
    CalcTimesAt(m, a, i);
    assert Lookup(p, key) == IntToString(n);
    CountOfToString(n);
    CalcTimesAt(p, b, i);
    assert CalcTimes(p, b)[key] == IntToString(n + b);
    CalcTimesAt(m, c, i);
    assert CountOf(Lookup(m, key)) + c == n + b;
  }

  /** Starting from an empty cache, k >= 1 calcs leave exactly the ten keys, each
      holding to_string(k). */
  lemma CalcTimesFromEmpty(k: nat)
    requires 1 <= k <= IntMax
    ensures ReadyFor(map[], k)
    ensures forall key :: key in CalcTimes(map[], k) <==> IsCalcKey(key)
    ensures forall i :: 0 <= i < NumCalc ==> CalcTimes(map[], k)[Key(i)] == IntToString(k)
  {
    var m: map<string, string> := map[];
    assert forall i :: 0 <= i < NumCalc ==> Lookup(m, Key(i)) == "";
    forall i | 0 <= i < NumCalc
      ensures CalcTimes(m, k)[Key(i)] == IntToString(k)
    {
      CalcTimesAt(m, k, i);
    }
    forall key
      ensures key in CalcTimes(m, k) <==> IsCalcKey(key)
    {
      CalcKeysIff(key);
    }
  }

  /** The cache shared by reference between a benchmark and its calcs. */
  class Cache {
    var entries: map<string, string>

    /** A default-constructed, empty cache. */
    constructor ()
      ensures entries == map[]
    {
      entries := map[];
    }

    /** `calc`: for i in 0..num_calc, read cache[get_key(i)] (inserting "" when absent)
        and overwrite it with the bumped count. */
    method Calc()
      requires ReadyFor(entries, 1)
      modifies this
      ensures entries == CalcSpec(old(entries))
    {
      for i := 0 to NumCalc
        invariant ReadyFrom(entries, i)
        invariant CalcFrom(entries, i) == CalcSpec(old(entries))
      {
        var key := Key(i);
        ghost var prev := entries;
        if key !in entries {
          entries := entries[key := ""];
        }
        var str := entries[key];
        assert str == Lookup(prev, key);
        InsertThenWrite(prev, key, Bump(str));
        entries := entries[key := Bump(str)];
        assert entries == Step(prev, i);
        CalcFromStep(prev, i);
      }
    }
  }

  /** The keys among the first n whose value differs from the expected text, in visiting
      order: the ones `checkWork` logs an error for. */
  function MismatchedKeys(cache: map<string, string>, expected: string, n: nat): (r: seq<string>)
    requires n <= NumCalc
    requires forall i :: 0 <= i < n ==> Key(i) in cache
    ensures |r| <= n
    ensures forall i :: 0 <= i < NumCalc ==> (Key(i) in r <==> i < n && cache[Key(i)] != expected)
    ensures forall k :: k in r ==> IsCalcKey(k)
    decreases n
  {
    if n == 0 then []
    else
      var key := Key(n - 1);
      assert forall i :: 0 <= i < NumCalc && i != n - 1 ==> Key(i) != key by {
        forall i | 0 <= i < NumCalc && i != n - 1 {
          KeyInjective(i, n - 1);
        }
      }
      MismatchedKeys(cache, expected, n - 1) + (if cache[key] != expected then [key] else [])
  }

  /** The outcome of `checkWork`: every key was read and these mismatched, or
      `cache.at` threw out_of_range on a missing key after logging these. */
  datatype CheckOutcome =
    | Checked(mismatches: seq<string>)
    | OutOfRange(key: string, mismatches: seq<string>)

  /** `checkWork`: visit the ten keys in order, reading each with `at` (which throws on
      a missing key) and logging an error for each value other than to_string(check_val).
      check_val is an unsigned int defaulting to max_iter*2. */
  method CheckWork(cache: map<string, string>, checkVal: nat := MaxIter * 2) returns (r: CheckOutcome)
    requires checkVal < 0x1_0000_0000
    ensures r.Checked? <==> forall i :: 0 <= i < NumCalc ==> Key(i) in cache
    ensures r.Checked? ==> r.mismatches == MismatchedKeys(cache, IntToString(checkVal), NumCalc)
    ensures r.OutOfRange? ==> r.key !in cache && exists j :: (0 <= j < NumCalc && r.key == Key(j) &&
      (forall i :: 0 <= i < j ==> Key(i) in cache) && r.mismatches == MismatchedKeys(cache, IntToString(checkVal), j))
  {
    var strCheck := NatToString(checkVal);
    var logged: seq<string> := [];
    for i := 0 to NumCalc
      invariant forall j :: 0 <= j < i ==> Key(j) in cache
      invariant logged == MismatchedKeys(cache, strCheck, i)
    {
      var key := Key(i);
      if key !in cache {
        return OutOfRange(key, logged);
      }
      var str := cache[key];
      if str != strCheck {
        logged := logged + [key];
      }
    }
    return Checked(logged);
  }

  /** checkWork accepts (logs nothing) exactly when all ten values equal the expected text. */
  lemma MismatchedKeysEmpty(cache: map<string, string>, expected: string)
    requires forall i :: 0 <= i < NumCalc ==> Key(i) in cache
    ensures MismatchedKeys(cache, expected, NumCalc) == [] <==>
      forall i :: 0 <= i < NumCalc ==> cache[Key(i)] == expected
  {
    var r := MismatchedKeys(cache, expected, NumCalc);
    if r != [] {
      assert IsCalcKey(r[0]);
      CalcKeyIff(r[0]);
    }
  }

  /** Room for `total` calcs leaves room for fewer. */
  lemma ReadyForFewer(m: map<string, string>, j: nat, k: nat)
    requires j <= k && ReadyFor(m, k)
    ensures ReadyFor(m, j)
  {
  }

  /** With room for `total` calcs, the state after d calcs has room for n more as long as
      d + n <= total, and those n more lead to the state after e == d + n calcs. */
  lemma CalcTimesNext(m: map<string, string>, d: nat, n: nat, e: nat, total: nat)
    requires e == d + n && e <= total && ReadyFor(m, total)
    ensures ReadyFor(CalcTimes(m, d), n)
    ensures CalcTimes(CalcTimes(m, d), n) == CalcTimes(m, e)
  {
    CalcTimesReadyMore(m, d, n, total);
    ReadyForFewer(m, e, total);
    CalcTimesAdd(m, d, n, e);
  }

  /** With room for `total` calcs, the state after d calcs has room for n more when
      d + n <= total. */
  lemma CalcTimesReadyMore(m: map<string, string>, d: nat, n: nat, total: nat)
    requires d + n <= total && ReadyFor(m, total)
    ensures ReadyFor(CalcTimes(m, d), n)
  {
    CalcTimesHeadroom(m, d, total);
    ReadyForFewer(CalcTimes(m, d), n, total - d);
  }

  /** The state after a given number of calcs depends only on that number, however it is
      written. */
  lemma CalcTimesSameCount(m: map<string, string>, a: nat, b: nat)
    requires a == b
    ensures CalcTimes(m, a) == CalcTimes(m, b)
  {
  }

  /** After k calcs on an empty cache, checkWork with check_val == k logs nothing, and with
      any other check_val it logs all ten keys, in order. */
  lemma CheckAfterCalcs(k: nat, checkVal: nat)
    requires 1 <= k <= IntMax
    ensures forall i :: 0 <= i < NumCalc ==> Key(i) in CalcTimes(map[], k)
    ensures k == checkVal ==> MismatchedKeys(CalcTimes(map[], k), IntToString(checkVal), NumCalc) == []
    ensures k != checkVal ==>
      MismatchedKeys(CalcTimes(map[], k), IntToString(checkVal), NumCalc) == seq(NumCalc, i requires 0 <= i < NumCalc => Key(i))
  {
    var c := CalcTimes(map[], k);
    CalcTimesFromEmpty(k);
    forall i | 0 <= i < NumCalc
      ensures Key(i) in c
    {
      KeyIsCalcKey(i);
    }
    if k == checkVal {
      MismatchedKeysEmpty(c, IntToString(checkVal));
    } else {
      IntToStringInjective(k, checkVal);
      MismatchedKeysAll(c, IntToString(checkVal), NumCalc);
    }
  }

  /** When all ten values differ from the expected text, checkWork logs every key, in order. */
  lemma {:induction false} MismatchedKeysAll(cache: map<string, string>, expected: string, n: nat)
    requires n <= NumCalc
    requires forall i :: 0 <= i < n ==> Key(i) in cache && cache[Key(i)] != expected
    ensures MismatchedKeys(cache, expected, n) == seq(n, i requires 0 <= i < n => Key(i))
    decreases n
  {
    if n > 0 {
      MismatchedKeysAll(cache, expected, n - 1);
    }
  }
}
