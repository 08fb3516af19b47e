/**
  The inter-image result cache of qrcode/src/img_scanner.c: which sightings of a symbol are
  reported. The cache drops stale entries while it searches; the reference definition, Count, looks
  at nothing but the times at which one symbol was seen.

  Times are milliseconds of a clock that does not go backwards. The age of an entry is kept in 32
  bits, as in the source.
 */
module ResultCache {
  import opened Sequences

  const PROXIMITY := 1000
  const HYSTERESIS := 2000
  const TIMEOUT := 4000
  const WORD := 0x1_0000_0000

  /** What cache_lookup compares: symbol type and data. */
  datatype Key = Key(symType: int, data: seq<int>)

  datatype Sighting = Sighting(key: Key, time: int)

  datatype Entry = Entry(key: Key, time: int, count: int)

  // ---------- The reference definition ----------

  /** The count that a symbol type with uncertainty u starts from. */
  function Start(u: nat): int {
    var n: int := u;
    -n
  }

  /** The times at which one symbol was seen. */
  function Times(history: seq<Sighting>, key: Key): seq<int> {
    if history == [] then []
    else
      var k := |history| - 1;
      Times(history[..k], key) + if history[k].key == key then [history[k].time] else []
  }

  /** The count after the last of these sightings, for a symbol type with uncertainty u. */
  function Count(ts: seq<int>, u: nat): (c: int)
    requires ts != []
    ensures c >= Start(u)
  {
    var k := |ts| - 1;
    if k == 0 then Start(u) else Ideal(Count(ts[..k], u), ts[k] - ts[k - 1], u)
  }

  function Ideal(count: int, age: int, u: nat): int {
    if age >= HYSTERESIS || (count < 0 && age >= PROXIMITY) then Start(u) else count + 1
  }

  // ---------- What a count of zero means ----------

  /** Where the count of a run of sightings starts over. */
  predicate Restart(ts: seq<int>, k: nat)
    requires k < |ts|
  {
    k == 0 || ts[k] - ts[k - 1] >= PROXIMITY
  }

  /** A count c <= 0 comes c + u sightings after a restart, each less than a second after the one
      before; a count of 0, which is what gets reported, comes after u of them. */
  lemma {:induction false} CountedUp(ts: seq<int>, u: nat)
    requires ts != [] && Count(ts, u) <= 0
    ensures var n := Count(ts, u) + u;
            && n < |ts| && Restart(ts, |ts| - 1 - n) && Count(ts[..|ts| - n], u) == Start(u)
            && forall i :: |ts| - n <= i < |ts| ==> ts[i] - ts[i - 1] < PROXIMITY
  {
    var k := |ts| - 1;
    var n := Count(ts, u) + u;
    if n > 0 {
      CountedUp(ts[..k], u);
      assert ts[..k][..k - (n - 1)] == ts[..|ts| - n];
      forall i | |ts| - n <= i < |ts|
        ensures ts[i] - ts[i - 1] < PROXIMITY
      {
        if i < k {
          assert ts[..k][i] - ts[..k][i - 1] < PROXIMITY;
        }
      }
    } else {
      assert ts[..|ts|] == ts;
    }
  }

  /** Conversely, the count starts over after two seconds without a sighting, or after one second when
      it was still negative, and then goes up with every sighting less than a second after the one before. */
  lemma {:induction false} CountsUp(ts: seq<int>, u: nat, k: nat)
    requires k < |ts| && forall i :: k < i < |ts| ==> ts[i] - ts[i - 1] < 1000
    requires k == 0 || ts[k] - ts[k - 1] >= 2000 || (ts[k] - ts[k - 1] >= 1000 && Count(ts[..k], u) < 0)
    ensures Count(ts, u) == |ts| - 1 - k - u
  {
    var n := |ts| - 1;
    if k == n {
    } else {
      assert ts[..n][..k] == ts[..k];
      CountsUp(ts[..n], u, k);
    }
  }

  /** After a zero every sighting is counted until the symbol has been away for two seconds. */
  lemma {:induction false} CountsOn(ts: seq<int>, u: nat, i: nat, j: nat)
    requires i <= j < |ts| && Count(ts[..i + 1], u) >= 0
    requires forall k :: i < k <= j ==> ts[k] - ts[k - 1] < 2000
    ensures Count(ts[..j + 1], u) == Count(ts[..i + 1], u) + j - i
  {
    if i == j {
    } else {
      assert ts[..j + 1][..j] == ts[..j];
      CountsOn(ts, u, i, j - 1);
    }
  }

  /** Between two reports of one symbol it was not seen for at least two seconds. */
  lemma ZerosApart(ts: seq<int>, u: nat, i: nat, j: nat)
    requires i < j < |ts| && Count(ts[..i + 1], u) == 0 && Count(ts[..j + 1], u) == 0
    ensures exists k :: i < k <= j && ts[k] - ts[k - 1] >= HYSTERESIS
  {
    if forall k :: i < k <= j ==> ts[k] - ts[k - 1] < HYSTERESIS {
      CountsOn(ts, u, i, j);
    }
  }

  // ---------- The cache ----------

  /** cache_sym on one entry, with the age in 32 bits. */
  function Counted(count: int, age: int, u: nat): int {
    var age32 := age % WORD;
    var near, far, dup := age32 < PROXIMITY, age32 >= HYSTERESIS, count >= 0;
    if (!dup && !near) || far then Start(u) else if dup || near then count + 1 else count
  }

  /** An age that 32 bits turn into a short one. */
  predicate Wraps(count: int, age: int) {
    age >= WORD && age % WORD < HYSTERESIS && (age % WORD < PROXIMITY || count >= 0)
  }

  lemma AgesAgree(count: int, age: int, u: nat)
    requires count >= Start(u) && age >= 0
    ensures Counted(count, age, u) == Ideal(count, age, u) <==> !Wraps(count, age)
  {}

  /** The list after a lookup: stale entries in front of the matching one are gone. */
  function Purge(cache: seq<Entry>, key: Key, time: int): seq<Entry> {
    if cache == [] || cache[0].key == key then cache
    else if time - cache[0].time > TIMEOUT then Purge(cache[1..], key, time)
    else [cache[0]] + Purge(cache[1..], key, time)
  }

  lemma PurgeFrom(cache: seq<Entry>, i: nat, key: Key, time: int)
    requires i <= |cache|
    ensures cache[0..] == cache
    ensures (i == |cache| || cache[i].key == key) ==> Purge(cache[i..], key, time) == cache[i..]
    ensures i < |cache| && cache[i].key != key ==>
              Purge(cache[i..], key, time) ==
                (if time - cache[i].time > TIMEOUT then [] else [cache[i]]) + Purge(cache[i + 1..], key, time)
  {
    if i < |cache| {
      assert cache[i..][1..] == cache[i + 1..];
    }
  }

  ghost predicate KeysDistinct(cache: seq<Entry>) {
    forall i, j :: 0 <= i < j < |cache| ==> cache[i].key != cache[j].key
  }

  predicate Holds(cache: seq<Entry>, key: Key) {
    exists i :: 0 <= i < |cache| && cache[i].key == key
  }

  lemma {:induction false} PurgeKeeps(cache: seq<Entry>, key: Key, time: int)
    requires KeysDistinct(cache)
    ensures var kept := Purge(cache, key, time);
            && KeysDistinct(kept)
            && (forall e :: e in kept ==> e in cache)
            && (forall e :: e in cache && e !in kept ==> e.key != key && time - e.time > TIMEOUT)
  {
    if cache == [] || cache[0].key == key {
    } else {
      PurgeKeeps(cache[1..], key, time);
      var rest := Purge(cache[1..], key, time);
      assert cache == [cache[0]] + cache[1..];
      if time - cache[0].time <= TIMEOUT {
        DistinctCons(cache, rest);
      }
    }
  }

  /** In front of the match, or anywhere when there is none, nothing older than four seconds is left;
      from the match on nothing is touched. */
  lemma {:induction false} PurgeDrops(cache: seq<Entry>, key: Key, time: int)
    ensures var kept := Purge(cache, key, time);
            && (forall i :: 0 <= i < Find(kept, key) ==> time - kept[i].time <= 4000)
            && kept[Find(kept, key)..] == cache[Find(cache, key)..]
  {
    if cache == [] || cache[0].key == key {
    } else {
      PurgeDrops(cache[1..], key, time);
      assert Find(cache, key) == 1 + Find(cache[1..], key);
    }
  }

  lemma DistinctCons(cache: seq<Entry>, rest: seq<Entry>)
    requires cache != [] && KeysDistinct(cache) && KeysDistinct(rest) && forall e :: e in rest ==> e in cache[1..]
    ensures KeysDistinct([cache[0]] + rest)
  {
    forall j | 0 <= j < |rest|
      ensures rest[j].key != cache[0].key
    {
      assert rest[j] in cache[1..];
    }
  }

  // ---------- Cache and history ----------

  /** The entry records the last sighting of its symbol and the count it was given. */
  ghost predicate Records(e: Entry, history: seq<Sighting>, u: nat) {
    var ts := Times(history, e.key);
    ts != [] && e.time == Last(ts) && e.count == Count(ts, u)
  }

  ghost predicate Stale(history: seq<Sighting>, key: Key) {
    var ts := Times(history, key);
    ts != [] && history != [] ==> history[|history| - 1].time - Last(ts) > TIMEOUT
  }

  ghost predicate NotBefore(history: seq<Sighting>, time: int) {
    history != [] ==> history[|history| - 1].time <= time
  }

  lemma SeenLast(history: seq<Sighting>, s: Sighting, key: Key)
    ensures Times(history + [s], key) == Times(history, key) + if s.key == key then [s.time] else []
  {
    assert (history + [s])[..|history|] == history;
  }

  lemma CountNext(ts: seq<int>, time: int, u: nat)
    ensures Count(ts + [time], u) == if ts == [] then Start(u) else Ideal(Count(ts, u), time - Last(ts), u)
  {
    assert (ts + [time])[..|ts|] == ts;
  }

  lemma {:induction false} TimesRise(history: seq<Sighting>, key: Key)
    requires forall i :: 0 < i < |history| ==> history[i - 1].time <= history[i].time
    ensures Times(history, key) != [] ==> Last(Times(history, key)) <= history[|history| - 1].time
  {
    if history == [] {
    } else {
      var k := |history| - 1;
      TimesRise(history[..k], key);
    }
  }

  /** The count of a symbol that the cache has no entry for: it was never seen, or too long ago. */
  lemma FreshCount(history: seq<Sighting>, s: Sighting, u: nat)
    requires Stale(history, s.key) && NotBefore(history, s.time)
    ensures Count(Times(history + [s], s.key), u) == Start(u)
  {
    SeenLast(history, s, s.key);
    CountNext(Times(history, s.key), s.time, u);
  }

  /** The count of a symbol that the cache has an entry for. */
  lemma RecordedCount(history: seq<Sighting>, s: Sighting, e: Entry, u: nat)
    requires Records(e, history, u) && e.key == s.key && s.time >= e.time
    ensures Count(Times(history + [s], s.key), u) == Counted(e.count, s.time - e.time, u) <==>
              !Wraps(e.count, s.time - e.time)
  {
    SeenLast(history, s, s.key);
    CountNext(Times(history, s.key), s.time, u);
    AgesAgree(e.count, s.time - e.time, u);
  }

  lemma OthersRecorded(e: Entry, history: seq<Sighting>, s: Sighting, u: nat)
    requires Records(e, history, u) && e.key != s.key
    ensures Records(e, history + [s], u)
  {
    SeenLast(history, s, e.key);
    assert Times(history + [s], e.key) == Times(history, e.key);
  }

  /** An entry that was purged, or was missing before, is stale. */
  lemma OthersStale(history: seq<Sighting>, s: Sighting, key: Key)
    requires key != s.key && NotBefore(history, s.time)
    requires Stale(history, key) || (Times(history, key) != [] && s.time - Last(Times(history, key)) > TIMEOUT)
    ensures Stale(history + [s], key)
  {
    SeenLast(history, s, key);
    if history == [] {
      assert Times(history, key) == [];
    }
  }

  /** Every entry is right, and a symbol without an entry has not been seen for four seconds. */
  ghost predicate FaithfulTo(cache: seq<Entry>, history: seq<Sighting>, uncertainty: int -> nat) {
    && KeysDistinct(cache)
    && (forall i :: 0 < i < |history| ==> history[i - 1].time <= history[i].time)
    && (forall e :: e in cache ==> Records(e, history, uncertainty(e.key.symType)))
    && (forall key :: !Holds(cache, key) ==> Stale(history, key))
  }

  /** One entry put in place of the one for its key, some stale ones dropped, nothing else changed. */
  ghost predicate Replaced(was: seq<Entry>, now: seq<Entry>, entry: Entry) {
    && KeysDistinct(now) && entry in now
    && (forall e :: e in now ==> e == entry || (e in was && e.key != entry.key))
    && (forall e :: e in was && e.key != entry.key && e !in now ==> entry.time - e.time > TIMEOUT)
  }

  lemma HoldsMember(cache: seq<Entry>, e: Entry)
    requires e in cache
    ensures Holds(cache, e.key)
  {
    var i :| 0 <= i < |cache| && cache[i] == e;
  }

  lemma ReplacedFront(was: seq<Entry>, entry: Entry)
    requires KeysDistinct(Purge(was, entry.key, entry.time)) && KeysDistinct(was)
    requires var kept := Purge(was, entry.key, entry.time);
             forall i :: 0 <= i < |kept| ==> kept[i].key != entry.key
    ensures Replaced(was, [entry] + Purge(was, entry.key, entry.time), entry) && !Holds(was, entry.key)
  {
    hide Purge;
    var kept := Purge(was, entry.key, entry.time);
    PurgeKeeps(was, entry.key, entry.time);
    var now := [entry] + kept;
    assert now[0] == entry;
    assert forall e :: e in kept ==> e in now;
  }

  lemma ReplacedAt(was: seq<Entry>, kept: seq<Entry>, entry: Entry, i: nat)
    requires kept == Purge(was, entry.key, entry.time) && KeysDistinct(was) && i < |kept| && kept[i].key == entry.key
    ensures Replaced(was, kept[i := entry], entry) && kept[i] in was
  {
    hide Purge;
    PurgeKeeps(was, entry.key, entry.time);
    var now := kept[i := entry];
    assert now[i] == entry;
    forall e | e in now
      ensures e == entry || (e in was && e.key != entry.key)
    {
      var j :| 0 <= j < |now| && now[j] == e;
    }
    forall e | e in kept && e.key != entry.key
      ensures e in now
    {
      var j :| 0 <= j < |kept| && kept[j] == e;
      assert now[j] == e;
    }
  }

  /** A right entry keeps the cache faithful. */
  lemma StaysFaithful(was: seq<Entry>, now: seq<Entry>, history: seq<Sighting>, entry: Entry, uncertainty: int -> nat)
    requires FaithfulTo(was, history, uncertainty) && Replaced(was, now, entry) && NotBefore(history, entry.time)
    requires entry.count ==
               Count(Times(history + [Sighting(entry.key, entry.time)], entry.key), uncertainty(entry.key.symType))
    ensures FaithfulTo(now, history + [Sighting(entry.key, entry.time)], uncertainty)
  {
    hide Times, Count, Records, Stale;
    var s := Sighting(entry.key, entry.time);
    forall e | e in now
      ensures Records(e, history + [s], uncertainty(e.key.symType))
    {
      if e == entry {
        EntryRecords(history, entry, uncertainty(entry.key.symType));
      } else {
        OthersRecorded(e, history, s, uncertainty(e.key.symType));
      }
    }
    forall key | !Holds(now, key)
      ensures Stale(history + [s], key)
    {
      HoldsMember(now, entry);
      if Holds(was, key) {
        var i :| 0 <= i < |was| && was[i].key == key;
        if was[i] in now {
          HoldsMember(now, was[i]);
        } else {
          RecordedTime(was[i], history, uncertainty(key.symType));
        }
      }
      OthersStale(history, s, key);
    }
  }

  lemma RecordedTime(e: Entry, history: seq<Sighting>, u: nat)
    requires Records(e, history, u)
    ensures Times(history, e.key) != [] && e.time == Last(Times(history, e.key))
  {}

  lemma EntryRecords(history: seq<Sighting>, entry: Entry, u: nat)
    requires entry.count == Count(Times(history + [Sighting(entry.key, entry.time)], entry.key), u)
    ensures Records(entry, history + [Sighting(entry.key, entry.time)], u)
  {
    SeenLast(history, Sighting(entry.key, entry.time), entry.key);
  }

  lemma SameKey(cache: seq<Entry>, a: Entry, b: Entry)
    requires KeysDistinct(cache) && a in cache && b in cache && a.key == b.key
    ensures a == b
  {
    var i :| 0 <= i < |cache| && cache[i] == a;
    var j :| 0 <= j < |cache| && cache[j] == b;
  }

  /** No entry for this key is so old that 32 bits lose its age. */
  ghost predicate Unwrapped(cache: seq<Entry>, key: Key, time: int) {
    forall e :: e in cache && e.key == key ==> !Wraps(e.count, time - e.time)
  }

  /** When the new count is the one that the times of the symbol ask for. */
  lemma RightCount(was: seq<Entry>, history: seq<Sighting>, key: Key, time: int, count: int, uncertainty: int -> nat)
    requires FaithfulTo(was, history, uncertainty) && NotBefore(history, time)
    requires !Holds(was, key) ==> count == Start(uncertainty(key.symType))
    requires forall e :: e in was && e.key == key ==> count == Counted(e.count, time - e.time, uncertainty(key.symType))
    ensures count == Count(Times(history + [Sighting(key, time)], key), uncertainty(key.symType)) <==>
              Unwrapped(was, key, time)
  {
    hide Times, Count, Records, Stale, Counted, Wraps;
    var s := Sighting(key, time);
    if Holds(was, key) {
      var i :| 0 <= i < |was| && was[i].key == key;
      var e := was[i];
      RecordedTime(e, history, uncertainty(key.symType));
      TimesRise(history, key);
      NonEmpty(history, key);
      RecordedCount(history, s, e, uncertainty(key.symType));
      forall o | o in was && o.key == key
        ensures o == e
      {
        SameKey(was, o, e);
      }
    } else {
      FreshCount(history, s, uncertainty(key.symType));
      forall e | e in was && e.key == key
        ensures false
      {
        HoldsMember(was, e);
      }
    }
  }

  lemma NonEmpty(history: seq<Sighting>, key: Key)
    ensures Times(history, key) != [] ==> history != []
  {}

  /** The last branch of cache_sym is never reached. */
  lemma CountedBy(count: int, age: int, u: nat)
    ensures var age32 := age % WORD;
            Counted(count, age, u) ==
              if (count < 0 && age32 >= PROXIMITY) || age32 >= HYSTERESIS then Start(u) else count + 1
    ensures Counted(count, HYSTERESIS, u) == Start(u)
  {}

  // ---------- One sighting ----------

  /** The first entry for a key; the length of the list when there is none. */
  function Find(cache: seq<Entry>, key: Key): (i: nat)
    ensures i <= |cache| && (i < |cache| ==> cache[i].key == key)
    ensures forall j :: 0 <= j < i ==> cache[j].key != key
  {
    if cache == [] then 0 else if cache[0].key == key then 0 else 1 + Find(cache[1..], key)
  }

  /** The count that a sighting is given. */
  function SightCount(cache: seq<Entry>, key: Key, time: int, u: nat): int {
    var i := Find(cache, key);
    if i < |cache| then Counted(cache[i].count, time - cache[i].time, u) else Start(u)
  }

  /** The cache after a sighting. */
  function Sight(cache: seq<Entry>, key: Key, time: int, u: nat): seq<Entry> {
    var kept := Purge(cache, key, time);
    var i := Find(kept, key);
    if i < |kept| then kept[i := Entry(key, time, Counted(kept[i].count, time - kept[i].time, u))]
    else [Entry(key, time, Start(u))] + kept
  }

  /** One entry is replaced, and its count is the one given. */
  lemma SightReplaces(cache: seq<Entry>, key: Key, time: int, u: nat)
    requires KeysDistinct(cache)
    ensures Replaced(cache, Sight(cache, key, time, u), Entry(key, time, SightCount(cache, key, time, u)))
    ensures !Holds(cache, key) ==> SightCount(cache, key, time, u) == Start(u)
    ensures forall e :: e in cache && e.key == key ==>
            SightCount(cache, key, time, u) == Counted(e.count, time - e.time, u)
  {
    hide Counted, Purge;
    var kept := Purge(cache, key, time);
    var i, j := Find(kept, key), Find(cache, key);
    PurgeKeeps(cache, key, time);
    forall e | e in cache && e.key == key
      ensures j < |cache| && e == cache[j]
    {
      HoldsMember(cache, e);
      SameKey(cache, e, cache[j]);
    }
    if i < |kept| {
      ReplacedAt(cache, kept, Entry(key, time, Counted(kept[i].count, time - kept[i].time, u)), i);
      assert kept[i] in cache;
    } else {
      ReplacedFront(cache, Entry(key, time, Start(u)));
      FindHeld(cache, key);
    }
  }

  lemma FindHeld(cache: seq<Entry>, key: Key)
    ensures Holds(cache, key) <==> Find(cache, key) < |cache|
  {}

  // ---------- Runs of sightings ----------

  /** The cache after these sightings, from an empty one. */
  function RunCache(history: seq<Sighting>, uncertainty: int -> nat): seq<Entry> {
    if history == [] then []
    else
      var s := Last(history);
      Sight(RunCache(history[..|history| - 1], uncertainty), s.key, s.time, uncertainty(s.key.symType))
  }

  /** The count that sighting i is given. */
  function RunCount(history: seq<Sighting>, i: nat, uncertainty: int -> nat): int
    requires i < |history|
  {
    SightCount(RunCache(history[..i], uncertainty), history[i].key, history[i].time,
        uncertainty(history[i].key.symType))
  }

  /** The count that the times of its symbol alone ask for at sighting i. */
  ghost predicate RightAt(history: seq<Sighting>, i: nat, uncertainty: int -> nat)
    requires i < |history|
  {
    var ts := Times(history[..i + 1], history[i].key);
    ts != [] && RunCount(history, i, uncertainty) == Count(ts, uncertainty(history[i].key.symType))
  }

  /** At sighting i no entry for its symbol is so old that 32 bits lose its age. */
  ghost predicate FitsAt(history: seq<Sighting>, i: nat, uncertainty: int -> nat)
    requires i < |history|
  {
    Unwrapped(RunCache(history[..i], uncertainty), history[i].key, history[i].time)
  }

  ghost predicate Monotone(history: seq<Sighting>) {
    forall i :: 0 < i < |history| ==> history[i - 1].time <= history[i].time
  }

  lemma EmptyFaithful(uncertainty: int -> nat)
    ensures FaithfulTo([], [], uncertainty)
  {}

  /** One more sighting: the count is right exactly when no age is lost, and then the cache stays
      faithful. */
  lemma SightFaithful(cache: seq<Entry>, history: seq<Sighting>, s: Sighting, uncertainty: int -> nat)
    requires FaithfulTo(cache, history, uncertainty) && NotBefore(history, s.time)
    ensures var u, now := uncertainty(s.key.symType), history + [s];
            && Times(now, s.key) != []
            && (SightCount(cache, s.key, s.time, u) == Count(Times(now, s.key), u) <==> Unwrapped(cache, s.key, s.time))
            && (Unwrapped(cache, s.key, s.time) ==> FaithfulTo(Sight(cache, s.key, s.time, u), now, uncertainty))
  {
    hide SightCount, Sight, Counted, Count, Replaced, Unwrapped;
    var u := uncertainty(s.key.symType);
    var count := SightCount(cache, s.key, s.time, u);
    SightReplaces(cache, s.key, s.time, u);
    SeenLast(history, s, s.key);
    RightCount(cache, history, s.key, s.time, count, uncertainty);
    if Unwrapped(cache, s.key, s.time) {
      StaysFaithful(cache, Sight(cache, s.key, s.time, u), history, Entry(s.key, s.time, count), uncertainty);
    }
  }

  lemma RunStep(history: seq<Sighting>, n: nat, uncertainty: int -> nat)
    requires Monotone(history) && n < |history|
    requires FaithfulTo(RunCache(history[..n], uncertainty), history[..n], uncertainty)
    ensures RightAt(history, n, uncertainty) <==> FitsAt(history, n, uncertainty)
    ensures FitsAt(history, n, uncertainty) ==>
              FaithfulTo(RunCache(history[..n + 1], uncertainty), history[..n + 1], uncertainty)
  {
    hide SightCount, Sight, FaithfulTo, Unwrapped, Times, RunCache, Count;
    assert history[..n + 1] == history[..n] + [history[n]];
    assert NotBefore(history[..n], history[n].time);
    SightFaithful(RunCache(history[..n], uncertainty), history[..n], history[n], uncertainty);
    RunNext(history, n, uncertainty);
  }

  lemma RunNext(history: seq<Sighting>, n: nat, uncertainty: int -> nat)
    requires n < |history|
    ensures var s := history[n];
            RunCache(history[..n + 1], uncertainty) ==
              Sight(RunCache(history[..n], uncertainty), s.key, s.time, uncertainty(s.key.symType))
  {
    hide Sight;
    assert history[..n + 1][..n] == history[..n];
  }

  lemma {:induction false} RunFaithful(history: seq<Sighting>, n: nat, uncertainty: int -> nat)
    requires Monotone(history) && n <= |history| && forall i :: 0 <= i < n ==> FitsAt(history, i, uncertainty)
    ensures FaithfulTo(RunCache(history[..n], uncertainty), history[..n], uncertainty)
    ensures forall i :: 0 <= i < n ==> RightAt(history, i, uncertainty)
    ensures n < |history| ==> (RightAt(history, n, uncertainty) <==> FitsAt(history, n, uncertainty))
  {
    hide FaithfulTo, RunCache, RightAt, FitsAt;
    if n == 0 {
      EmptyFaithful(uncertainty);
      RunNothing(uncertainty);
      assert history[..0] == [];
    } else {
      RunFaithful(history, n - 1, uncertainty);
      RunStep(history, n - 1, uncertainty);
    }
    if n < |history| {
      RunStep(history, n, uncertainty);
    }
  }

  lemma RunNothing(uncertainty: int -> nat)
    ensures RunCache([], uncertainty) == []
  {}

  /** Over every run of sightings with a clock that does not go backwards: all counts are those that
      the times of each symbol alone ask for if and only if no sighting meets an entry whose age 32
      bits lose. */
  lemma RunCounts(history: seq<Sighting>, uncertainty: int -> nat)
    requires Monotone(history)
    ensures (forall i :: 0 <= i < |history| ==> RightAt(history, i, uncertainty)) <==>
            (forall i :: 0 <= i < |history| ==> FitsAt(history, i, uncertainty))
  {
    hide RightAt, FitsAt;
    if forall i :: 0 <= i < |history| ==> FitsAt(history, i, uncertainty) {
      RunFaithful(history, |history|, uncertainty);
    } else {
      var n := FirstLoss(history, |history|, uncertainty);
      RunFaithful(history, n, uncertainty);
    }
  }

  lemma {:induction false} FirstLoss(history: seq<Sighting>, n: nat, uncertainty: int -> nat) returns (k: nat)
    requires n <= |history| && exists i :: 0 <= i < n && !FitsAt(history, i, uncertainty)
    ensures k < n && !FitsAt(history, k, uncertainty) && forall i :: 0 <= i < k ==> FitsAt(history, i, uncertainty)
  {
    hide FitsAt;
    if forall i :: 0 <= i < n - 1 ==> FitsAt(history, i, uncertainty) {
      k := n - 1;
    } else {
      k := FirstLoss(history, n - 1, uncertainty);
    }
  }

  /** Sightings of one symbol follow each other within 2^32 ms. */
  ghost predicate Frequent(history: seq<Sighting>) {
    forall i :: 0 <= i < |history| ==>
      var ts := Times(history[..i], history[i].key);
      ts != [] ==> history[i].time - Last(ts) < WORD
  }

  /** Then every count is right. */
  lemma FrequentCounts(history: seq<Sighting>, uncertainty: int -> nat)
    requires Monotone(history) && Frequent(history)
    ensures forall i :: 0 <= i < |history| ==> RightAt(history, i, uncertainty)
  {
    hide RightAt, FitsAt;
    if exists i :: 0 <= i < |history| && !FitsAt(history, i, uncertainty) {
      var n := FirstLoss(history, |history|, uncertainty);
      RunFaithful(history, n, uncertainty);
      FitsWhenFrequent(history, n, uncertainty);
    }
    RunFaithful(history, |history|, uncertainty);
  }

  lemma FitsWhenFrequent(history: seq<Sighting>, n: nat, uncertainty: int -> nat)
    requires n < |history| && Frequent(history)
    requires FaithfulTo(RunCache(history[..n], uncertainty), history[..n], uncertainty)
    ensures FitsAt(history, n, uncertainty)
  {
    hide RunCache, Times;
    forall e | e in RunCache(history[..n], uncertainty) && e.key == history[n].key
      ensures !Wraps(e.count, history[n].time - e.time)
    {
      RecordedTime(e, history[..n], uncertainty(e.key.symType));
    }
  }

  /** A symbol seen again after exactly 2^32 ms, some 50 days: the cache counts on, where the times
      say that it has to be reported. */
  lemma FiftyDays()
    ensures Wraps(0, WORD) && Counted(0, WORD, 0) == 1 && Count([0, WORD], 0) == 0
  {
    assert [0, WORD][..1] == [0];
  }
}
