/**
 * The frequency oracle (fsel/lib/path_oracle.py). Usage statistics are a
 * nested dictionary: at every level the key '.' holds how often that path
 * was chosen and every other key leads to the dictionary of a child name.
 * Here that dictionary is the trie `Stats`, with the '.' entry as the
 * `counter` field and the other entries as `children` in insertion order.
 */
module PathOracle {
  import opened Wrappers
  import opened PyStr

  /** The key that holds a level's counter. */
  const COUNTER_KEY: string := "."

  datatype Stats = Stats(counter: Option<int>, children: seq<(string, Stats)>)

  /** `{}`. */
  const EMPTY: Stats := Stats(None, [])

  /** `cs.get(k)` on the child entries: the first entry with key `k`. */
  function ChildIn(cs: seq<(string, Stats)>, k: string): (r: Option<Stats>)
    ensures r.None? <==> forall i :: 0 <= i < |cs| ==> cs[i].0 != k
  {
    if |cs| == 0 then None
    else if cs[0].0 == k then Some(cs[0].1)
    else
      assert forall i :: 1 <= i < |cs| ==> cs[i] == cs[1..][i - 1];
      ChildIn(cs[1..], k)
  }

  function Child(t: Stats, k: string): Option<Stats> {
    ChildIn(t.children, k)
  }

  /** `d[k] = v` on the child entries: replaces the entry in place, or appends a new one. */
  function Put(cs: seq<(string, Stats)>, k: string, v: Stats): (r: seq<(string, Stats)>)
    ensures ChildIn(cs, k).Some? ==> |r| == |cs|
    ensures ChildIn(cs, k).None? ==> r == cs + [(k, v)]
    ensures forall i :: 0 <= i < |r| ==> r[i].0 == k || (i < |cs| && r[i] == cs[i])
  {
    if |cs| == 0 then [(k, v)]
    else if cs[0].0 == k then [(k, v)] + cs[1..]
    else [cs[0]] + Put(cs[1..], k, v)
  }

  lemma {:induction false} PutThenGet(cs: seq<(string, Stats)>, k: string, v: Stats, k': string)
    ensures ChildIn(Put(cs, k, v), k') == if k' == k then Some(v) else ChildIn(cs, k')
    decreases |cs|
  {
    if |cs| > 0 && cs[0].0 != k {
      PutThenGet(cs[1..], k, v, k');
      assert Put(cs, k, v)[1..] == Put(cs[1..], k, v);
    } else if |cs| > 0 {
      assert ([(k, v)] + cs[1..])[1..] == cs[1..];
    }
  }

  function SetChild(t: Stats, k: string, v: Stats): Stats {
    Stats(t.counter, Put(t.children, k, v))
  }

  /**
   * `incr(stats, names + ['.'])`: adds one to the counter at `names`,
   * creating the missing levels; a missing counter counts as 0.
   */
  function Incr(t: Stats, names: seq<string>): Stats
    decreases |names|
  {
    if |names| == 0 then Stats(Some(t.counter.GetOr(0) + 1), t.children)
    else SetChild(t, names[0], Incr(Child(t, names[0]).GetOr(EMPTY), names[1..]))
  }

  /** `get_entry(stats, path)`: the dictionary reached by following `path`, or None. */
  function GetEntry(t: Stats, path: seq<string>): Option<Stats>
    decreases |path|
  {
    if |path| == 0 then Some(t)
    else
      match Child(t, path[0])
      case None => None
      case Some(c) => GetEntry(c, path[1..])
  }

  /** The counter stored at `names`, 0 when absent. */
  function CountAt(t: Stats, names: seq<string>): int {
    match GetEntry(t, names)
    case None => 0
    case Some(e) => e.counter.GetOr(0)
  }

  /** No path segment is the counter key. */
  predicate NoCounterKey(path: seq<string>) {
    forall i :: 0 <= i < |path| ==> path[i] != COUNTER_KEY
  }

  /** Following `p + q` is following `p`, then `q`. */
  lemma {:induction false} GetEntryConcat(t: Stats, p: seq<string>, q: seq<string>)
    ensures GetEntry(t, p + q) == match GetEntry(t, p)
      case None => None
      case Some(e) => GetEntry(e, q)
    decreases |p|
  {
    if |p| > 0 {
      assert (p + q)[0] == p[0] && (p + q)[1..] == p[1..] + q;
      match Child(t, p[0])
      case None =>
      case Some(c) => GetEntryConcat(c, p[1..], q);
    } else {
      assert p + q == q;
    }
  }

  /** The empty path reaches the dictionary itself; one segment reaches that child. */
  lemma GetEntryOneLevel(t: Stats, k: string)
    ensures GetEntry(t, []) == Some(t)
    ensures GetEntry(t, [k]) == Child(t, k)
  {
    match Child(t, k)
    case None =>
    case Some(c) => assert GetEntry(c, []) == Some(c);
  }

  /** Nothing is recorded below a fresh dictionary. */
  lemma {:induction false} EmptyHasNoEntries(q: seq<string>)
    ensures q != [] ==> GetEntry(EMPTY, q).None?
    ensures CountAt(EMPTY, q) == 0
  {
  }

  /** Incrementing at `p + q` and then following `p` is following `p` first and incrementing at `q` there. */
  lemma {:induction false} IncrBelow(t: Stats, p: seq<string>, q: seq<string>)
    ensures GetEntry(Incr(t, p + q), p) == Some(Incr(GetEntry(t, p).GetOr(EMPTY), q))
    decreases |p|
  {
    if |p| > 0 {
      var c := Child(t, p[0]).GetOr(EMPTY);
      assert (p + q)[0] == p[0] && (p + q)[1..] == p[1..] + q;
      PutThenGet(t.children, p[0], Incr(c, p[1..] + q), p[0]);
      IncrBelow(c, p[1..], q);
      if Child(t, p[0]).None? {
        if p[1..] != [] {
          EmptyHasNoEntries(p[1..]);
        }
      }
    } else {
      assert p + q == q;
    }
  }

  /** `incr` raises the counter at `names` by exactly one. */
  lemma {:induction false} IncrCounts(t: Stats, names: seq<string>)
    ensures CountAt(Incr(t, names), names) == CountAt(t, names) + 1
  {
    IncrBelow(t, names, []);
    assert names + [] == names;
    var e := GetEntry(t, names).GetOr(EMPTY);
    assert GetEntry(Incr(t, names), names) == Some(Incr(e, []));
    if names != [] {
      EmptyHasNoEntries(names);
    }
  }

  /** `incr` changes no other counter. */
  lemma {:induction false} IncrKeepsOthers(t: Stats, names: seq<string>, other: seq<string>)
    requires other != names
    ensures CountAt(Incr(t, names), other) == CountAt(t, other)
    decreases |names|
  {
    if |names| == 0 {
      assert Child(Incr(t, names), other[0]) == Child(t, other[0]);
    } else if |other| == 0 {
    } else {
      var c := Child(t, names[0]).GetOr(EMPTY);
      var c' := Incr(c, names[1..]);
      PutThenGet(t.children, names[0], c', other[0]);
      if other[0] == names[0] {
        assert other == [other[0]] + other[1..] && names == [names[0]] + names[1..];
        assert other[1..] != names[1..];
        IncrKeepsOthers(c, names[1..], other[1..]);
        assert CountAt(Incr(t, names), other) == CountAt(c', other[1..]);
        if Child(t, names[0]).None? {
          EmptyHasNoEntries(other[1..]);
        }
      }
    }
  }

  /** No key at any level is the counter key, as in the dictionary it stands for. */
  ghost predicate WellFormed(t: Stats)
    decreases t
  {
    forall i :: 0 <= i < |t.children| ==>
      t.children[i].0 != COUNTER_KEY && WellFormed(t.children[i].1)
  }

  /** Every child of `t` carries a counter, which `most_frequent_in` reads. */
  predicate ChildrenCounted(t: Stats) {
    forall i :: 0 <= i < |t.children| ==> t.children[i].1.counter.Some?
  }

  /** Every child at every level carries a counter. */
  ghost predicate AllCounted(t: Stats)
    decreases t
  {
    ChildrenCounted(t) && forall i :: 0 <= i < |t.children| ==> AllCounted(t.children[i].1)
  }

  lemma {:induction false} PutKeeps(cs: seq<(string, Stats)>, k: string, v: Stats, i: nat)
    requires i < |Put(cs, k, v)|
    ensures Put(cs, k, v)[i] == (k, v) || (i < |cs| && Put(cs, k, v)[i] == cs[i])
    decreases |cs|
  {
    if |cs| > 0 && cs[0].0 != k && i > 0 {
      PutKeeps(cs[1..], k, v, i - 1);
    }
  }

  /** `incr` keeps the tree well formed, given names that are not the counter key. */
  lemma {:induction false} IncrWellFormed(t: Stats, names: seq<string>)
    requires WellFormed(t) && NoCounterKey(names)
    ensures WellFormed(Incr(t, names))
    decreases |names|
  {
    if |names| > 0 {
      var c := Child(t, names[0]).GetOr(EMPTY);
      ChildWellFormed(t, names[0]);
      IncrWellFormed(c, names[1..]);
      var cs := Put(t.children, names[0], Incr(c, names[1..]));
      forall i | 0 <= i < |cs|
        ensures cs[i].0 != COUNTER_KEY && WellFormed(cs[i].1)
      {
        PutKeeps(t.children, names[0], Incr(c, names[1..]), i);
      }
    }
  }

  lemma {:induction false} ChildWellFormed(t: Stats, k: string)
    requires WellFormed(t)
    ensures WellFormed(Child(t, k).GetOr(EMPTY))
  {
    ChildInMember(t.children, k);
  }

  lemma {:induction false} ChildInMember(cs: seq<(string, Stats)>, k: string)
    ensures ChildIn(cs, k).Some? ==> exists i :: 0 <= i < |cs| && cs[i].1 == ChildIn(cs, k).value
    decreases |cs|
  {
    if |cs| > 0 && cs[0].0 != k {
      ChildInMember(cs[1..], k);
      if ChildIn(cs, k).Some? {
        var i :| 0 <= i < |cs[1..]| && cs[1..][i].1 == ChildIn(cs, k).value;
        assert cs[i + 1].1 == ChildIn(cs, k).value;
      }
    }
  }

  /** Incrementing below an already recorded prefix keeps every level counted. */
  lemma {:induction false} IncrAllCounted(t: Stats, p: seq<string>, n: string)
    requires AllCounted(t) && GetEntry(t, p).Some?
    ensures AllCounted(Incr(t, p + [n]))
    decreases |p|
  {
    if |p| == 0 {
      assert p + [n] == [n];
      var c := Child(t, n).GetOr(EMPTY);
      ChildAllCounted(t, n);
      assert Incr(c, []).counter.Some?;
      var cs := Put(t.children, n, Incr(c, []));
      forall i | 0 <= i < |cs|
        ensures cs[i].1.counter.Some? && AllCounted(cs[i].1)
      {
        PutKeeps(t.children, n, Incr(c, []), i);
      }
    } else {
      assert (p + [n])[0] == p[0] && (p + [n])[1..] == p[1..] + [n];
      var c := Child(t, p[0]).value;
      ChildAllCounted(t, p[0]);
      ChildInMember(t.children, p[0]);
      IncrAllCounted(c, p[1..], n);
      var c' := Incr(c, p[1..] + [n]);
      assert c'.counter == c.counter;
      var cs := Put(t.children, p[0], c');
      forall i | 0 <= i < |cs|
        ensures cs[i].1.counter.Some? && AllCounted(cs[i].1)
      {
        PutKeeps(t.children, p[0], c', i);
      }
    }
  }

  lemma {:induction false} ChildAllCounted(t: Stats, k: string)
    requires AllCounted(t)
    ensures AllCounted(Child(t, k).GetOr(EMPTY))
    ensures Child(t, k).Some? ==> Child(t, k).value.counter.Some?
  {
    ChildInMember(t.children, k);
  }

  /** Below a fully counted dictionary, every reachable dictionary is fully counted. */
  lemma {:induction false} AllCountedEntry(t: Stats, p: seq<string>)
    requires AllCounted(t) && GetEntry(t, p).Some?
    ensures AllCounted(GetEntry(t, p).value)
    decreases |p|
  {
    if |p| > 0 {
      ChildAllCounted(t, p[0]);
      AllCountedEntry(Child(t, p[0]).value, p[1..]);
    }
  }

  /** After `incr` at `p`, the dictionary at `p` exists. */
  lemma IncrCreates(t: Stats, p: seq<string>)
    ensures GetEntry(Incr(t, p), p).Some?
  {
    IncrBelow(t, p, []);
    assert p + [] == p;
  }

  /** The count a child entry carries; `most_frequent_in` reads it as `v['.']`. */
  function Count(c: (string, Stats)): int {
    c.1.counter.GetOr(0)
  }

  /** The running-maximum loop of `most_frequent_in`, from position `i` on. */
  function Scan(cs: seq<(string, Stats)>, i: nat, topF: int, result: Option<string>): Option<string>
    requires i <= |cs|
    decreases |cs| - i
  {
    if i == |cs| then result
    else if Count(cs[i]) > topF then Scan(cs, i + 1, Count(cs[i]), Some(cs[i].0))
    else Scan(cs, i + 1, topF, result)
  }

  /** `most_frequent_in(entry)`. */
  function MostFrequent(t: Stats): Option<string> {
    Scan(t.children, 0, 0, None)
  }

  /** The position of the first child with the largest count among positions `i..`. */
  function FirstMax(cs: seq<(string, Stats)>, i: nat): (m: nat)
    requires i < |cs|
    ensures i <= m < |cs|
    ensures forall j :: i <= j < |cs| ==> Count(cs[j]) <= Count(cs[m])
    ensures forall j :: i <= j < m ==> Count(cs[j]) < Count(cs[m])
    decreases |cs| - i
  {
    if i == |cs| - 1 then i
    else
      var m := FirstMax(cs, i + 1);
      if Count(cs[i]) >= Count(cs[m]) then i else m
  }

  lemma {:induction false} ScanPicksFirstMax(cs: seq<(string, Stats)>, i: nat, topF: int, result: Option<string>)
    requires i < |cs|
    ensures Scan(cs, i, topF, result) ==
      if Count(cs[FirstMax(cs, i)]) > topF then Some(cs[FirstMax(cs, i)].0) else result
    decreases |cs| - i
  {
    if i < |cs| - 1 {
      if Count(cs[i]) > topF {
        ScanPicksFirstMax(cs, i + 1, Count(cs[i]), Some(cs[i].0));
      } else {
        ScanPicksFirstMax(cs, i + 1, topF, result);
      }
    }
  }

  /** Position `m` holds the first of the largest counts, and that count is positive. */
  predicate IsFirstStrictMax(cs: seq<(string, Stats)>, m: int) {
    0 <= m < |cs| && Count(cs[m]) > 0 &&
    (forall j :: 0 <= j < |cs| ==> Count(cs[j]) <= Count(cs[m])) &&
    (forall j :: 0 <= j < m ==> Count(cs[j]) < Count(cs[m]))
  }

  /**
   * `most_frequent_in` returns the key of the first child with the strictly
   * greatest positive count, and None exactly when no count is positive.
   */
  lemma MostFrequentIsFirstStrictMax(t: Stats)
    ensures MostFrequent(t).None? <==> forall j :: 0 <= j < |t.children| ==> Count(t.children[j]) <= 0
    ensures MostFrequent(t).Some? ==>
      exists m :: IsFirstStrictMax(t.children, m) && MostFrequent(t).value == t.children[m].0
  {
    if |t.children| > 0 {
      ScanPicksFirstMax(t.children, 0, 0, None);
    }
  }

  /** `most_frequent_in` never answers the counter key of a well-formed dictionary. */
  lemma MostFrequentIsAName(t: Stats)
    requires WellFormed(t)
    ensures MostFrequent(t) != Some(COUNTER_KEY)
  {
    MostFrequentIsFirstStrictMax(t);
  }

  /** `recall_chosen_name(path)` as a function of the usage statistics. */
  function Recall(t: Stats, path: seq<string>): Option<string> {
    match GetEntry(t, path)
    case None => None
    case Some(e) => MostFrequent(e)
  }

  /** Nothing recorded under `path` means nothing recalled. */
  lemma RecallUnrecorded(t: Stats, path: seq<string>)
    requires GetEntry(t, path).None? || GetEntry(t, path).value.children == []
    ensures Recall(t, path) == None
  {
  }

  /** After one persistent choice of `n` under a prefix with no recorded children, `n` is recalled there. */
  lemma RecallAfterMemorize(t: Stats, p: seq<string>, n: string)
    requires GetEntry(t, p).None? || GetEntry(t, p).value.children == []
    ensures Recall(Incr(t, p + [n]), p) == Some(n)
  {
    IncrBelow(t, p, [n]);
    var e := GetEntry(t, p).GetOr(EMPTY);
    var e' := Incr(e, [n]);
    assert Child(e, n) == None;
    assert e'.children == [(n, Incr(EMPTY, []))];
    assert Scan(e'.children, 0, 0, None) == Scan(e'.children, 1, 1, Some(n));
  }

  /** `'/'.join(path)`, the key of the last-choice history. */
  function StringPath(path: seq<string>): string {
    Join(path, "/")
  }

  /**
   * The oracle. `rootHistory` is the persistent last-choice history and
   * `usageStats` the persistent counters, both owned by the settings;
   * `visitHistory` lives for one session.
   */
  class PathOracle {
    var rootHistory: map<string, string>
    var usageStats: Stats
    var visitHistory: map<string, string>

    ghost predicate Valid()
      reads this
    {
      WellFormed(usageStats)
    }

    constructor (history: map<string, string>, stats: Stats)
      ensures rootHistory == history && usageStats == stats && visitHistory == map[]
    {
      rootHistory := history;
      usageStats := stats;
      visitHistory := map[];
    }

    /**
     * Records that `name` was chosen under `path`: always in the history the
     * flag selects, and in the counters only when persistent.
     */
    method Memorize(path: seq<string>, name: string, persistent: bool)
      requires Valid() && (persistent ==> NoCounterKey(path) && name != COUNTER_KEY)
      modifies this
      ensures Valid()
      ensures persistent ==> (rootHistory == old(rootHistory)[StringPath(path) := name]
        && visitHistory == old(visitHistory) && usageStats == Incr(old(usageStats), path + [name]))
      ensures !persistent ==> (visitHistory == old(visitHistory)[StringPath(path) := name]
        && rootHistory == old(rootHistory) && usageStats == old(usageStats))
    {
      var key := StringPath(path);
      if persistent {
        rootHistory := rootHistory[key := name];
      } else {
        visitHistory := visitHistory[key := name];
      }
      var statPath := path + [name];
      if persistent {
        assert NoCounterKey(statPath);
        IncrWellFormed(usageStats, statPath);
        usageStats := Incr(usageStats, statPath);
      }
    }

    /** The most frequent choice under `path`, from the counters alone. */
    method RecallChosenName(path: seq<string>) returns (r: Option<string>)
      requires GetEntry(usageStats, path).Some? ==> ChildrenCounted(GetEntry(usageStats, path).value)
      ensures r == Recall(usageStats, path)
    {
      var entry := GetEntry(usageStats, path);
      if entry.Some? {
        r := MostFrequentIn(entry.value);
        return;
      }
      return None;
    }

    /** The running-maximum loop over the child entries. */
    method MostFrequentIn(entry: Stats) returns (result: Option<string>)
      requires ChildrenCounted(entry)
      ensures result == MostFrequent(entry)
    {
      var topF := 0;
      result := None;
      var i := 0;
      while i < |entry.children|
        invariant 0 <= i <= |entry.children|
        invariant Scan(entry.children, 0, 0, None) == Scan(entry.children, i, topF, result)
      {
        var (k, v) := entry.children[i];
        var f := v.counter.value;
        if f > topF {
          topF := f;
          result := Some(k);
        }
        i := i + 1;
      }
    }
  }
}
