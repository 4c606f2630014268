/**
 The cache as its clients see it: a finite map from (group, key) to versioned entries. Every public
 operation of the manager is a step on this map, and the theorems here range over all runs of steps.
 */
module CacheSpec {
  import opened Basics
  import Decimal

  datatype Key = Key(group: nat, name: seq<byte>)

  datatype Entry = Entry(data: seq<byte>, flags: nat, ext: seq<byte>, expireTime: nat, version: nat)

  /** The entries, and the last cache id handed out. */
  datatype Store = Store(entries: map<Key, Entry>, lastId: nat)

  datatype Reason = Success | NotFound | Exists | TooLarge | Mismatch | OutOfMemory | WatchNotFound | UnknownCommand

  datatype Outcome = Outcome(store: Store, reason: Reason)

  /**
   One step. `expected` is the id a client names (0 for none); `watchOk` says that the watch it names exists
   (or that it names none); `fits` says that memory for a replacement item could be had; `rest` is what lies in memory
   behind the item.
   */
  datatype Op =
    | Add(key: Key, content: Entry, watchOk: bool)
    | Set(key: Key, content: Entry, expected: nat, watchOk: bool)
    | Replace(key: Key, content: Entry, expected: nat, watchOk: bool)
    | Append(key: Key, data: seq<byte>, expected: nat, watchOk: bool, fits: bool)
    | Prepend(key: Key, data: seq<byte>, expected: nat, watchOk: bool, fits: bool)
    | Remove(key: Key, expected: nat)
    | Delta(key: Key, incr: bool, delta: int, expected: nat, fits: bool, rest: Decimal.Memory)
    | UpdateFlags(key: Key, flags: nat, expected: nat)
    | UpdateExpiration(key: Key, expireTime: nat, expected: nat)
    | Get(key: Key, now: nat, watchOk: bool)
    | GetTouch(key: Key, expireTime: nat, watchOk: bool)
    | Expire(gone: set<Key>, now: nat)
    | Flush(group: nat)

  predicate Allows(expected: nat, e: Entry) {
    expected == 0 || expected == e.version
  }

  predicate Expired(e: Entry, now: nat) {
    0 < e.expireTime <= now
  }

  /** Stores content under a key with a freshly issued id. */
  function Put(st: Store, k: Key, e: Entry): Store {
    Store(st.entries[k := e.(version := st.lastId + 1)], st.lastId + 1)
  }

  function Drop(st: Store, gone: set<Key>): Store {
    st.(entries := st.entries - gone)
  }

  /** What lies behind an entry's data: its ext, and what follows. */
  function Behind(ext: seq<byte>, rest: Decimal.Memory): Decimal.Memory {
    (i: nat) => if i < |ext| then ext[i] else rest(i - |ext|)
  }

  /** The number a counter step starts from; text that does not parse counts as 0. */
  function NumberIn(e: Entry, rest: Decimal.Memory): int {
    match Decimal.ParseIn(e.data, Behind(e.ext, rest)) case None => 0 case Some(v) => v
  }

  /** The number a counter step computes. */
  function DeltaValue(e: Entry, incr: bool, delta: int, rest: Decimal.Memory): int {
    var v := NumberIn(e, rest);
    Decimal.Wrap64(if incr then v + delta else v - delta)
  }

  function GroupKeys(st: Store, g: nat): set<Key> {
    set k | k in st.entries && k.group == g
  }

  /** The size of an item with the fixed header, as 32 bits tell it. */
  function CountedSize(header: nat, k: Key, e: Entry): nat {
    (header + |k.name| + |e.data| + |e.ext|) % 0x1_0000_0000
  }

  /** The sizes of a group's items. */
  ghost function GroupSizes(st: Store, g: nat, header: nat): map<Key, nat> {
    map k | k in st.entries && k.group == g :: CountedSize(header, k, st.entries[k])
  }

  lemma GroupSizesDrop(st: Store, g: nat, header: nat, k: Key)
    requires k in st.entries && k.group == g
    ensures GroupSizes(Drop(st, {k}), g, header) == GroupSizes(st, g, header) - {k}
    ensures Sum(GroupSizes(st, g, header)) ==
            CountedSize(header, k, st.entries[k]) + Sum(GroupSizes(Drop(st, {k}), g, header))
    ensures |GroupSizes(st, g, header)| == 1 + |GroupSizes(Drop(st, {k}), g, header)|
  {
    var m := GroupSizes(st, g, header);
    assert GroupSizes(Drop(st, {k}), g, header) == m - {k};
    SumSplit(m, k);
    assert (m - {k}).Keys == m.Keys - {k};
    assert |(m - {k}).Keys| == |m.Keys| - 1;
  }

  lemma DropTwice(st: Store, gone: set<Key>, k: Key)
    ensures Drop(Drop(st, gone), {k}) == Drop(st, gone + {k})
  {
    assert st.entries - gone - {k} == st.entries - (gone + {k});
  }

  /** Once none of a group is left, what has been dropped of it is all of it. */
  lemma GroupGone(st: Store, gone: set<Key>, g: nat, header: nat)
    requires gone <= GroupKeys(st, g) && GroupKeys(Drop(st, gone), g) == {}
    ensures Drop(st, gone) == Drop(st, GroupKeys(st, g))
    ensures GroupSizes(Drop(st, gone), g, header) == map[]
  {
    assert forall k :: k in GroupKeys(st, g) ==> k in gone || k in GroupKeys(Drop(st, gone), g);
    assert gone == GroupKeys(st, g);
  }

  function ExpiredKeys(st: Store, now: nat): set<Key> {
    set k | k in st.entries && Expired(st.entries[k], now)
  }

  /** Replacing is dropping and putting. */
  lemma PutAfterDrop(st: Store, k: Key, e: Entry)
    ensures Put(Drop(st, {k}), k, e) == Put(st, k, e)
  {
    assert (st.entries - {k})[k := e.(version := st.lastId + 1)] == st.entries[k := e.(version := st.lastId + 1)];
  }

  lemma PutIgnoresVersion(st: Store, k: Key, e: Entry, v: nat)
    ensures Put(st, k, e.(version := v)) == Put(st, k, e)
  {
  }

  /** Moves an entry's expiry and nothing else. */
  function Retime(st: Store, k: Key, t: nat): Store
    requires k in st.entries
  {
    st.(entries := st.entries[k := st.entries[k].(expireTime := t)])
  }

  /** The answer to a step that needs its key present and `expected` to allow the change. */
  function Guard(st: Store, k: Key, expected: nat, watchOk: bool, fits: bool): Reason {
    if k !in st.entries then NotFound
    else if !Allows(expected, st.entries[k]) then Mismatch
    else if !fits then OutOfMemory
    else if !watchOk then WatchNotFound
    else Success
  }

  function Verdict(st: Store, op: Op): Reason {
    match op
    case Add(k, _, watchOk) =>
      if k in st.entries then Exists else if watchOk then Success else WatchNotFound
    case Set(k, _, expected, watchOk) =>
      if k in st.entries then Guard(st, k, expected, watchOk, true)
      else if watchOk then Success else WatchNotFound
    case Replace(k, _, expected, watchOk) => Guard(st, k, expected, watchOk, true)
    case Append(k, _, expected, watchOk, fits) => Guard(st, k, expected, watchOk, fits)
    case Prepend(k, _, expected, watchOk, fits) => Guard(st, k, expected, watchOk, fits)
    case Remove(k, expected) => Guard(st, k, expected, true, true)
    case Delta(k, _, _, expected, fits, _) => Guard(st, k, expected, true, fits)
    case UpdateFlags(k, _, expected) => Guard(st, k, expected, true, true)
    case UpdateExpiration(k, _, expected) => Guard(st, k, expected, true, true)
    case Get(k, now, watchOk) =>
      if k !in st.entries || Expired(st.entries[k], now) then NotFound
      else if watchOk then Success else WatchNotFound
    case GetTouch(k, _, watchOk) =>
      if k !in st.entries then NotFound else if watchOk then Success else WatchNotFound
    case Expire(_, _) => Success
    case Flush(_) => Success
  }

  /** What a successful step writes under its key. */
  function Written(was: Option<Entry>, op: Op): Entry
    requires op.Add? || op.Set? || was.Some?
    requires op.Add? || op.Set? || op.Replace? || op.Append? || op.Prepend? || op.Delta? || op.UpdateFlags?
  {
    match op
    case Append(_, data, _, _, _) => was.value.(data := was.value.data + data)
    case Prepend(_, data, _, _, _) => was.value.(data := data + was.value.data)
    case Delta(_, incr, d, _, _, rest) => was.value.(data := Decimal.Print(DeltaValue(was.value, incr, d, rest)))
    case UpdateFlags(_, flags, _) => was.value.(flags := flags)
    case _ => op.content
  }

  function Find(st: Store, k: Key): Option<Entry> {
    if k in st.entries then Some(st.entries[k]) else None
  }

  /** The step's effect on the map. An expired entry is dropped, and a touched one retimed, even by a refused read. */
  function Effect(st: Store, op: Op): Store {
    match op
    case Get(k, now, _) => if k in st.entries && Expired(st.entries[k], now) then Drop(st, {k}) else st
    case GetTouch(k, t, _) => if k in st.entries then Retime(st, k, t) else st
    case Expire(gone, _) => Drop(st, gone)
    case Flush(g) => Drop(st, GroupKeys(st, g))
    case Remove(k, _) => if Verdict(st, op) == Success then Drop(st, {k}) else st
    case UpdateExpiration(k, t, _) => if Verdict(st, op) == Success then Retime(st, k, t) else st
    case _ => if Verdict(st, op) == Success then Put(st, op.key, Written(Find(st, op.key), op)) else st
  }

  function Apply(st: Store, op: Op): Outcome {
    Outcome(Effect(st, op), Verdict(st, op))
  }

  // What a step answers, operation by operation.

  lemma AddAnswer(st: Store, k: Key, e: Entry, watchOk: bool)
    ensures Apply(st, Add(k, e, watchOk)) ==
            if k in st.entries then Outcome(st, Exists)
            else if !watchOk then Outcome(st, WatchNotFound) else Outcome(Put(st, k, e), Success)
  {
  }

  lemma SetAnswer(st: Store, k: Key, e: Entry, expected: nat, watchOk: bool)
    ensures Apply(st, Set(k, e, expected, watchOk)) ==
            if k in st.entries && !Allows(expected, st.entries[k]) then Outcome(st, Mismatch)
            else if !watchOk then Outcome(st, WatchNotFound) else Outcome(Put(st, k, e), Success)
    ensures Apply(st, Replace(k, e, expected, watchOk)) ==
            if k in st.entries then Apply(st, Set(k, e, expected, watchOk)) else Outcome(st, NotFound)
  {
  }

  lemma ExtendAnswer(st: Store, k: Key, data: seq<byte>, expected: nat, watchOk: bool, fits: bool)
    ensures var append := Apply(st, Append(k, data, expected, watchOk, fits));
            var prepend := Apply(st, Prepend(k, data, expected, watchOk, fits));
            if k !in st.entries then append == prepend == Outcome(st, NotFound)
            else if !Allows(expected, st.entries[k]) then append == prepend == Outcome(st, Mismatch)
            else if !fits then append == prepend == Outcome(st, OutOfMemory)
            else if !watchOk then append == prepend == Outcome(st, WatchNotFound)
            else
              var e := st.entries[k];
              && append == Outcome(Put(st, k, e.(data := e.data + data)), Success)
              && prepend == Outcome(Put(st, k, e.(data := data + e.data)), Success)
  {
  }

  lemma RemoveAnswer(st: Store, k: Key, expected: nat)
    ensures Apply(st, Remove(k, expected)) ==
            if k !in st.entries then Outcome(st, NotFound)
            else if !Allows(expected, st.entries[k]) then Outcome(st, Mismatch)
            else Outcome(Drop(st, {k}), Success)
  {
  }

  lemma DeltaAnswer(st: Store, k: Key, incr: bool, delta: int, expected: nat, fits: bool, rest: Decimal.Memory)
    ensures Apply(st, Delta(k, incr, delta, expected, fits, rest)) ==
            if k !in st.entries then Outcome(st, NotFound)
            else if !Allows(expected, st.entries[k]) then Outcome(st, Mismatch)
            else if !fits then Outcome(st, OutOfMemory)
            else Outcome(Put(st, k, st.entries[k].(data := Decimal.Print(DeltaValue(st.entries[k], incr, delta, rest)))), Success)
  {
  }

  lemma FlagsAnswer(st: Store, k: Key, flags: nat, expected: nat)
    ensures Apply(st, UpdateFlags(k, flags, expected)) ==
            if k !in st.entries then Outcome(st, NotFound)
            else if !Allows(expected, st.entries[k]) then Outcome(st, Mismatch)
            else Outcome(Put(st, k, st.entries[k].(flags := flags)), Success)
  {
  }

  lemma ExpirationAnswer(st: Store, k: Key, t: nat, expected: nat)
    ensures Apply(st, UpdateExpiration(k, t, expected)) ==
            if k !in st.entries then Outcome(st, NotFound)
            else if !Allows(expected, st.entries[k]) then Outcome(st, Mismatch)
            else Outcome(Retime(st, k, t), Success)
  {
  }

  lemma GetAnswer(st: Store, k: Key, now: nat, t: nat, watchOk: bool)
    ensures var got, touched := Apply(st, Get(k, now, watchOk)), Apply(st, GetTouch(k, t, watchOk));
            if k !in st.entries then got == touched == Outcome(st, NotFound)
            else
              var found := if watchOk then Success else WatchNotFound;
              && got == (if Expired(st.entries[k], now) then Outcome(Drop(st, {k}), NotFound) else Outcome(st, found))
              && touched == Outcome(Retime(st, k, t), found)
  {
  }

  function After(st: Store, run: seq<Op>): Store {
    if run == [] then st else Effect(After(st, run[..|run| - 1]), run[|run| - 1])
  }

  /** Versions are issued, nonzero and never shared. */
  ghost predicate Versioned(st: Store) {
    && (forall k :: k in st.entries ==> 0 < st.entries[k].version <= st.lastId)
    && (forall j, k :: j in st.entries && k in st.entries && j != k ==> st.entries[j].version != st.entries[k].version)
  }

  /** `b` comes after `a`: old ids are kept by untouched content or gone for good. */
  ghost predicate Later(a: Store, b: Store) {
    && a.lastId <= b.lastId
    && forall k :: k in b.entries ==>
         || a.lastId < b.entries[k].version
         || (k in a.entries && SameContent(a.entries[k], b.entries[k]))
  }

  /** Everything but the expiry agrees, the version included. */
  predicate SameContent(a: Entry, b: Entry) {
    a.version == b.version && a.data == b.data && a.flags == b.flags && a.ext == b.ext
  }

  lemma PutKeepsVersions(st: Store, k: Key, e: Entry)
    requires Versioned(st)
    ensures Versioned(Put(st, k, e)) && Later(st, Put(st, k, e))
  {
  }

  lemma DropKeepsVersions(st: Store, gone: set<Key>)
    requires Versioned(st)
    ensures Versioned(Drop(st, gone)) && Later(st, Drop(st, gone))
  {
  }

  lemma RetimeKeepsVersions(st: Store, k: Key, t: nat)
    requires Versioned(st) && k in st.entries
    ensures Versioned(Retime(st, k, t)) && Later(st, Retime(st, k, t))
  {
  }

  /** Every step is a put, a drop, a retiming or nothing. */
  lemma StepKeepsVersions(st: Store, op: Op)
    requires Versioned(st)
    ensures Versioned(Effect(st, op)) && Later(st, Effect(st, op))
  {
    hide Versioned, Later;
    assert Versioned(st) && Later(st, st) by { DropKeepsVersions(st, {}); assert Drop(st, {}) == st; }
    match op {
      case Get(k, _, _) => DropKeepsVersions(st, {k});
      case GetTouch(k, t, _) => if k in st.entries { RetimeKeepsVersions(st, k, t); }
      case Expire(gone, _) => DropKeepsVersions(st, gone);
      case Flush(g) => DropKeepsVersions(st, GroupKeys(st, g));
      case Remove(k, _) => DropKeepsVersions(st, {k});
      case UpdateExpiration(k, t, _) => if k in st.entries { RetimeKeepsVersions(st, k, t); }
      case _ =>
        if Verdict(st, op) == Success {
          PutKeepsVersions(st, op.key, Written(Find(st, op.key), op));
        }
    }
  }

  lemma {:induction false} RunKeepsVersions(st: Store, run: seq<Op>, i: nat)
    requires Versioned(st) && i <= |run|
    ensures Versioned(After(st, run[..i])) && Versioned(After(st, run))
    ensures Later(After(st, run[..i]), After(st, run))
    decreases |run|
  {
    if i == |run| {
      assert run[..i] == run;
      if run != [] {
        var prior := run[..|run| - 1];
        RunKeepsVersions(st, prior, |prior|);
        assert prior[..|prior|] == prior;
        StepKeepsVersions(After(st, prior), run[|run| - 1]);
      }
    } else {
      var prior := run[..|run| - 1];
      RunKeepsVersions(st, prior, i);
      assert prior[..i] == run[..i];
      StepKeepsVersions(After(st, prior), run[|run| - 1]);
    }
  }

  /** In any run, a cache id names one key and one content: whenever it is seen, it is seen with the same bytes. */
  lemma VersionNamesContent(st: Store, run: seq<Op>, i: nat, j: nat, k: Key, l: Key)
    requires Versioned(st) && i <= j <= |run|
    requires k in After(st, run[..i]).entries && l in After(st, run[..j]).entries
    requires After(st, run[..i]).entries[k].version == After(st, run[..j]).entries[l].version
    ensures k == l && SameContent(After(st, run[..i]).entries[k], After(st, run[..j]).entries[l])
  {
    assert run[..j][..i] == run[..i];
    RunKeepsVersions(st, run[..j], i);
  }

  /** `op` changes a present entry and does so on the strength of the id `v`. */
  predicate UsesId(st: Store, op: Op, v: nat) {
    && v != 0
    && (op.Set? || op.Replace? || op.Append? || op.Prepend? || op.Delta? || op.Remove? || op.UpdateFlags?)
    && op.expected == v
    && op.key in st.entries
    && Verdict(st, op) == Success
  }

  lemma UsedIdIsCurrent(st: Store, op: Op, v: nat)
    requires UsesId(st, op, v)
    ensures st.entries[op.key].version == v
  {
  }

  /** A change made on the strength of an id leaves no entry with that id. */
  lemma StepSpendsId(st: Store, op: Op, v: nat)
    requires Versioned(st) && UsesId(st, op, v)
    ensures v <= Effect(st, op).lastId
    ensures forall k :: k in Effect(st, op).entries ==> Effect(st, op).entries[k].version != v
  {
    assert st.entries[op.key].version == v;
    assert Effect(st, op) == if op.Remove? then Drop(st, {op.key}) else Put(st, op.key, Written(Find(st, op.key), op));
  }

  /** In any run, one id value authorises at most one change. */
  lemma IdAuthorisesOnce(st: Store, run: seq<Op>, i: nat, j: nat, v: nat)
    requires Versioned(st) && i < j < |run|
    requires UsesId(After(st, run[..i]), run[i], v)
    ensures !UsesId(After(st, run[..j]), run[j], v)
  {
    hide Verdict, Effect, Versioned;
    var upto := run[..i + 1];
    assert upto[..i] == run[..i] && upto[..|upto| - 1] == run[..i];
    assert run[..j][..i + 1] == upto;
    RunKeepsVersions(st, upto, i);
    StepSpendsId(After(st, run[..i]), run[i], v);
    RunKeepsVersions(st, run[..j], i + 1);
    if UsesId(After(st, run[..j]), run[j], v) {
      UsedIdIsCurrent(After(st, run[..j]), run[j], v);
    }
  }

  /** The result a counter reaches after the signed steps `ds`, when no intermediate value leaves the 64-bit range. */
  function Total(v: int, ds: seq<int>): int {
    if ds == [] then v else Total(v, ds[..|ds| - 1]) + ds[|ds| - 1]
  }

  predicate InRange(v: int) { -Decimal.TWO_63 < v < Decimal.TWO_63 }

  /** The run that applies the steps `ds` to one counter, with increments and decrements chosen by `up`. */
  function CounterRun(k: Key, ds: seq<int>, up: seq<bool>, rests: seq<Decimal.Memory>): seq<Op>
    requires |ds| == |up| == |rests|
  {
    seq(|ds|, i requires 0 <= i < |ds| => CounterOp(k, ds[i], up[i], rests[i]))
  }

  function CounterOp(k: Key, d: int, up: bool, rest: Decimal.Memory): Op {
    Delta(k, up, if up then d else -d, 0, true, rest)
  }

  lemma NumberIsParsed(e: Entry, v: int, rest: Decimal.Memory)
    requires Decimal.Settled(e.data) && Decimal.Parse(e.data) == Some(v)
    ensures NumberIn(e, rest) == v
  {
    Decimal.ParseInIsParse(e.data);
  }

  /** What is printed is not just blanks. */
  lemma PrintSettled(v: int)
    ensures Decimal.Settled(Decimal.Print(v))
  {
    var s := Decimal.Print(v);
    assert !Decimal.IsSpace(s[0]);
  }

  /**
   One counter step in range, from a text that is not just blanks: whatever lies behind it, the new text prints and
   parses as the new value, and nothing else of the entry moves.
   */
  lemma CounterStep(st: Store, k: Key, v: int, up: bool, d: int, rest: Decimal.Memory)
    requires k in st.entries && Decimal.Settled(st.entries[k].data) && Decimal.Parse(st.entries[k].data) == Some(v)
    requires InRange(v + d)
    ensures var e := Effect(st, CounterOp(k, d, up, rest)).entries;
            && k in e
            && e[k] == st.entries[k].(data := Decimal.Print(v + d), version := st.lastId + 1)
            && Decimal.Parse(e[k].data) == Some(v + d) && Decimal.Settled(e[k].data)
  {
    hide Decimal.Print, Decimal.Parse, Decimal.Settled, NumberIn;
    NumberIsParsed(st.entries[k], v, rest);
    Decimal.ParsePrint(v + d);
    PrintSettled(v + d);
  }

  /** The number behind a text of blanks is what is counted from: " " before "-1" counts from -1. */
  lemma BlankCounts(e: Entry, sign: byte)
    requires e.ext == [] && !Decimal.Settled(e.data) && (sign == 45 || sign == 43)
    ensures NumberIn(e, i => if i == 0 then sign else if i == 1 then 49 else 32) == if sign == 45 then -1 else 1
  {
    var rest: Decimal.Memory := i => if i == 0 then sign else if i == 1 then 49 else 32;
    Decimal.ReadsOn(e.data, sign);
    Decimal.ParseInSame(e.data, Behind(e.ext, rest), rest);
  }

  /** A text that parses is counted from its own number, whatever lies behind it, if and only if it is not just blanks. */
  lemma CounterStepExactly(st: Store, k: Key, v: int, up: bool, d: int)
    requires k in st.entries && st.entries[k].ext == [] && Decimal.Parse(st.entries[k].data) == Some(v) && InRange(v + d)
    ensures (forall rest :: Effect(st, CounterOp(k, d, up, rest)) == Put(st, k, st.entries[k].(data := Decimal.Print(v + d)))) <==>
            Decimal.Settled(st.entries[k].data)
  {
    hide Decimal.Print, Decimal.Parse, Decimal.Settled, NumberIn;
    var e := st.entries[k];
    if Decimal.Settled(e.data) {
      forall rest ensures Effect(st, CounterOp(k, d, up, rest)) == Put(st, k, e.(data := Decimal.Print(v + d))) {
        NumberIsParsed(e, v, rest);
      }
    } else {
      var sign: byte := if d > 0 then 45 else 43;
      var rest: Decimal.Memory := i => if i == 0 then sign else if i == 1 then 49 else 32;
      var w := if d > 0 then d - 1 else d + 1;
      Decimal.ReadsOn(e.data, sign);
      BlankCounts(e, sign);
      Decimal.ParsePrint(w);
      Decimal.ParsePrint(d);
      assert Effect(st, CounterOp(k, d, up, rest)).entries[k].data == Decimal.Print(w);
    }
  }

  /** After any sequence of counter steps the stored text parses back to the initial value plus the sum of the steps. */
  lemma {:induction false} CounterIsExact(st: Store, k: Key, v: int, ds: seq<int>, up: seq<bool>, rests: seq<Decimal.Memory>)
    requires |ds| == |up| == |rests|
    requires k in st.entries && Decimal.Settled(st.entries[k].data) && Decimal.Parse(st.entries[k].data) == Some(v) && InRange(v)
    requires forall i :: 0 <= i <= |ds| ==> InRange(Total(v, ds[..i]))
    ensures var e := After(st, CounterRun(k, ds, up, rests)).entries;
            && k in e
            && Decimal.Parse(e[k].data) == Some(Total(v, ds)) && Decimal.Settled(e[k].data)
            && (ds != [] ==> e[k].data == Decimal.Print(Total(v, ds)))
            && e[k].flags == st.entries[k].flags && e[k].ext == st.entries[k].ext
            && e[k].expireTime == st.entries[k].expireTime
    decreases |ds|
  {
    hide Effect, Decimal.Print, Decimal.Parse, InRange, Decimal.Settled;
    if ds != [] {
      var n := |ds| - 1;
      var run := CounterRun(k, ds, up, rests);
      forall i | 0 <= i <= n
        ensures InRange(Total(v, ds[..n][..i]))
      {
        assert ds[..n][..i] == ds[..i];
      }
      CounterIsExact(st, k, v, ds[..n], up[..n], rests[..n]);
      assert run[..n] == CounterRun(k, ds[..n], up[..n], rests[..n]);
      assert ds[..|ds|] == ds;
      CounterStep(After(st, run[..n]), k, Total(v, ds[..n]), up[n], ds[n], rests[n]);
    }
  }
}
