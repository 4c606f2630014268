/**
 What the compressor's window and hash chains say about its input. All statements are in terms of positions in the
 whole input, of which the window shows a part from `base` on, so that sliding the window only changes `base`.
 */
module Lz77State {
  import opened Basics
  import opened Words
  import opened Lz77Hash
  import opened InflateWindow

  const MIN_MATCH: nat := 3
  const MAX_MATCH: nat := 258
  const MIN_LOOKAHEAD: nat := 262
  const TOO_FAR: nat := 4096

  /** The input read so far, where the window starts in it, and the strings entered, all of which begin before `next`. */
  datatype Dict = Dict(base: nat, input: seq<bv8>, inserted: set<nat>, next: nat)

  ghost function HashAt(bits: nat, input: seq<bv8>, p: nat): nat
    requires BitsOk(bits) && p + 3 <= |input|
  {
    Hash3(bits, input[p], input[p + 1], input[p + 2]) as nat
  }

  ghost predicate WindowIs(w: nat, d: Dict, win: seq<bv8>) {
    && |win| == 2 * w && d.base <= |d.input| <= d.base + 2 * w
    && forall i :: 0 <= i < |d.input| - d.base ==> win[i] == d.input[d.base + i]
  }

  ghost predicate InsertedOk(d: Dict) {
    forall p :: p in d.inserted ==> p < d.next && p + 3 <= |d.input|
  }

  /** The string entered at p has the hash h. */
  ghost predicate Entered(bits: nat, d: Dict, p: nat, h: nat)
    requires BitsOk(bits)
  {
    p in d.inserted && p + 3 <= |d.input| && HashAt(bits, d.input, p) == h
  }

  /**
   The window index q is where the last string before `until` with the hash h was entered; 0 if the window has none
   (or only one at its very beginning).
   */
  ghost predicate Points(bits: nat, d: Dict, q: nat, h: nat, until: nat)
    requires BitsOk(bits)
  {
    && (q > 0 ==> Entered(bits, d, d.base + q, h) && d.base + q < until)
    && forall p: nat :: Entered(bits, d, p, h) && d.base < p < until ==> p <= d.base + q
  }

  ghost predicate HeadOk(bits: nat, d: Dict, head: seq<nat>) {
    BitsOk(bits) && |head| == Entries(bits) && forall h :: 0 <= h < |head| ==> Points(bits, d, head[h], h, d.next)
  }

  /** From the string entered at p the chain leads to the last earlier one with the same hash, or ends. */
  ghost predicate Link(bits: nat, d: Dict, p: nat, q: nat)
    requires BitsOk(bits)
  {
    p + 3 <= |d.input| && Points(bits, d, q, HashAt(bits, d.input, p), p)
  }

  /** The links of the strings entered within the last w places are intact. */
  ghost predicate PrevOk(w: nat, bits: nat, d: Dict, prev: seq<nat>) {
    && BitsOk(bits) && |prev| == w > 0
    && forall p :: p in d.inserted && p + w >= d.next ==> Link(bits, d, p, prev[p % w])
  }

  ghost predicate Chains(w: nat, bits: nat, d: Dict, head: seq<nat>, prev: seq<nat>) {
    BitsOk(bits) && InsertedOk(d) && HeadOk(bits, d, head) && PrevOk(w, bits, d, prev)
  }

  // Reading more input.

  lemma PointsMore(bits: nat, d: Dict, q: nat, h: nat, until: nat, s: seq<bv8>)
    requires BitsOk(bits) && InsertedOk(d) && Points(bits, d, q, h, until)
    ensures Points(bits, d.(input := d.input + s), q, h, until)
  {
    hide Hash3;
    var e := d.(input := d.input + s);
    forall p | p in d.inserted ensures Entered(bits, e, p, h) <==> Entered(bits, d, p, h) {}
  }

  lemma ChainsMore(w: nat, bits: nat, d: Dict, head: seq<nat>, prev: seq<nat>, s: seq<bv8>)
    requires Chains(w, bits, d, head, prev)
    ensures Chains(w, bits, d.(input := d.input + s), head, prev)
  {
    hide Hash3, Points;
    var e := d.(input := d.input + s);
    forall h | 0 <= h < |head| ensures Points(bits, e, head[h], h, e.next) { PointsMore(bits, d, head[h], h, d.next, s); }
    forall p | p in e.inserted && p + w >= e.next ensures Link(bits, e, p, prev[p % w]) {
      assert Link(bits, d, p, prev[p % w]);
      PointsMore(bits, d, prev[p % w], HashAt(bits, d.input, p), p, s);
    }
  }

  lemma WindowMore(w: nat, d: Dict, win: seq<bv8>, s: seq<bv8>, win': seq<bv8>)
    requires WindowIs(w, d, win) && |win'| == |win|
    requires var n := |d.input| - d.base; n + |s| <= 2 * w && win'[..n] == win[..n] && win'[n..n + |s|] == s
    ensures WindowIs(w, d.(input := d.input + s), win')
  {
    var n := |d.input| - d.base;
    var e := d.(input := d.input + s);
    forall i | 0 <= i < n + |s| ensures win'[i] == e.input[d.base + i] {
      if i < n {
        assert win'[i] == win'[..n][i] && win[i] == win[..n][i];
      } else {
        assert win'[i] == win'[n..n + |s|][i - n];
      }
    }
  }

  // Sliding the window.

  function Slid(w: nat, m: nat): nat {
    if m >= w then m - w else 0
  }

  lemma PointsSlide(w: nat, bits: nat, d: Dict, q: nat, h: nat, until: nat)
    requires BitsOk(bits) && Points(bits, d, q, h, until)
    ensures Points(bits, d.(base := d.base + w), Slid(w, q), h, until)
  {
    hide HashAt;
    var e := d.(base := d.base + w);
    forall p: nat ensures Entered(bits, e, p, h) <==> Entered(bits, d, p, h) {}
  }

  lemma ChainsSlide(w: nat, bits: nat, d: Dict, head: seq<nat>, prev: seq<nat>, head': seq<nat>, prev': seq<nat>)
    requires Chains(w, bits, d, head, prev)
    requires |head'| == |head| && forall h :: 0 <= h < |head| ==> head'[h] == Slid(w, head[h])
    requires |prev'| == |prev| && forall i :: 0 <= i < |prev| ==> prev'[i] == Slid(w, prev[i])
    ensures Chains(w, bits, d.(base := d.base + w), head', prev')
  {
    hide HashAt, Points, Slid;
    var e := d.(base := d.base + w);
    forall h | 0 <= h < |head'| ensures Points(bits, e, head'[h], h, e.next) { PointsSlide(w, bits, d, head[h], h, d.next); }
    forall p | p in e.inserted && p + w >= e.next ensures Link(bits, e, p, prev'[p % w]) {
      assert Link(bits, d, p, prev[p % w]);
      PointsSlide(w, bits, d, prev[p % w], HashAt(bits, d.input, p), p);
    }
  }

  lemma WindowSlide(w: nat, d: Dict, win: seq<bv8>, win': seq<bv8>)
    requires WindowIs(w, d, win) && |win'| == |win| && win'[..w] == win[w..] && d.base + w <= |d.input|
    ensures WindowIs(w, d.(base := d.base + w), win')
  {
    var e := d.(base := d.base + w);
    forall i | 0 <= i < |e.input| - e.base ensures win'[i] == e.input[e.base + i] {
      assert win'[i] == win'[..w][i] && win[w + i] == win[w..][i];
    }
  }

  // Entering a string.

  lemma ModApart(w: nat, p: nat, q: nat)
    requires w > 0 && p < q < p + w
    ensures p % w != q % w
  {
    var k := q / w - p / w;
    assert q % w - p % w == q - p - w * k;
    if k >= 1 { assert w * k >= w; } else { assert w * k <= 0; }
  }

  ghost function WithString(d: Dict, p: nat): Dict {
    d.(inserted := d.inserted + {p}, next := p + 1)
  }

  /** The strings that begin behind `a`, up to `b`, as far as there are three bytes. */
  ghost function Strings(size: nat, a: nat, b: nat): set<nat> {
    set p | a < p <= b && HasString(size, p)
  }

  predicate HasString(size: nat, p: nat) { p + MIN_MATCH <= size }

  /** What pointed to the last string before `until` still does after a later one has been entered. */
  lemma PointsKept(bits: nat, d: Dict, q: nat, h: nat, until: nat, p: nat)
    requires BitsOk(bits) && Points(bits, d, q, h, until) && until <= p
    ensures Points(bits, WithString(d, p), q, h, until)
  {
    hide HashAt;
    forall r | r != p ensures Entered(bits, WithString(d, p), r, h) <==> Entered(bits, d, r, h) {}
  }

  /** After a string has been entered its hash's head points to it, and the other heads to what they did. */
  lemma PointsNew(bits: nat, d: Dict, q: nat, h: nat, str: nat)
    requires BitsOk(bits) && InsertedOk(d) && Points(bits, d, q, h, d.next)
    requires d.base + str >= d.next && d.base + str + 3 <= |d.input|
    ensures var p := d.base + str;
            var e := WithString(d, p);
            Points(bits, e, if HashAt(bits, d.input, p) == h then str else q, h, e.next)
  {
    hide Hash3;
    var p := d.base + str;
    forall r | r != p ensures Entered(bits, WithString(d, p), r, h) <==> Entered(bits, d, r, h) {}
  }

  lemma PointsUntil(bits: nat, d: Dict, q: nat, h: nat, until: nat)
    requires BitsOk(bits) && InsertedOk(d) && Points(bits, d, q, h, d.next) && until >= d.next
    ensures Points(bits, d, q, h, until)
  {
    hide HashAt;
  }

  /** Once entered, a string heads its chain; the one entered w places before it drops out. */
  lemma ChainsInsert(w: nat, bits: nat, d: Dict, head: seq<nat>, prev: seq<nat>, str: nat)
    requires Chains(w, bits, d, head, prev)
    requires d.base + str >= d.next && d.base + str + 3 <= |d.input|
    ensures var p := d.base + str;
            var h := HashAt(bits, d.input, p);
            && h < |head| && Points(bits, WithString(d, p), head[h], h, p)
            && Chains(w, bits, WithString(d, p), head[h := str], prev[p % w := head[h]])
  {
    hide HashAt, Points, PrevOk;
    var p := d.base + str;
    var h := HashAt(bits, d.input, p);
    HashFits(bits, d.input, p);
    HeadInsert(bits, d, head, str);
    PrevInsert(w, bits, d, prev, str, head[h]);
  }

  lemma HeadInsert(bits: nat, d: Dict, head: seq<nat>, str: nat)
    requires InsertedOk(d) && HeadOk(bits, d, head)
    requires d.base + str >= d.next && d.base + str + 3 <= |d.input| && HashAt(bits, d.input, d.base + str) < |head|
    ensures var p := d.base + str;
            var h := HashAt(bits, d.input, p);
            && Points(bits, WithString(d, p), head[h], h, p) && Points(bits, d, head[h], h, p)
            && HeadOk(bits, WithString(d, p), head[h := str])
  {
    hide HashAt, Points;
    var p := d.base + str;
    var h := HashAt(bits, d.input, p);
    PointsUntil(bits, d, head[h], h, p);
    PointsKept(bits, d, head[h], h, p, p);
    var head' := head[h := str];
    forall i | 0 <= i < |head| ensures Points(bits, WithString(d, p), head'[i], i, p + 1) {
      PointsNew(bits, d, head[i], i, str);
    }
  }

  lemma PrevInsert(w: nat, bits: nat, d: Dict, prev: seq<nat>, str: nat, q: nat)
    requires InsertedOk(d) && PrevOk(w, bits, d, prev)
    requires d.base + str >= d.next && d.base + str + 3 <= |d.input|
    requires Points(bits, WithString(d, d.base + str), q, HashAt(bits, d.input, d.base + str), d.base + str)
    ensures PrevOk(w, bits, WithString(d, d.base + str), prev[(d.base + str) % w := q])
  {
    hide HashAt, Points;
    var p := d.base + str;
    var prev' := prev[p % w := q];
    var e := WithString(d, p);
    forall r | r in e.inserted && r + w >= e.next ensures Link(bits, e, r, prev'[r % w]) {
      if r != p {
        ModApart(w, r, p);
        assert Link(bits, d, r, prev[r % w]);
        PointsKept(bits, d, prev[r % w], HashAt(bits, d.input, r), r, p);
      }
    }
  }

  lemma HashFits(bits: nat, input: seq<bv8>, p: nat)
    requires BitsOk(bits) && p + 3 <= |input|
    ensures HashAt(bits, input, p) < Entries(bits)
  {
    hide Update;
    IndexOk(bits, Update(bits, Update(bits, 0, Word(input[p])), Word(input[p + 1])), Word(input[p + 2]));
  }

  // The running hash.

  /** The running hash has taken in the first two bytes at p. */
  ghost predicate Primed(bits: nat, input: seq<bv8>, p: nat, h: word) {
    BitsOk(bits) && (p + 3 <= |input| ==> Update(bits, h, Word(input[p + 2])) == Hash3(bits, input[p], input[p + 1], input[p + 2]))
  }

  lemma PrimedNext(bits: nat, input: seq<bv8>, p: nat)
    requires BitsOk(bits) && p + 3 <= |input|
    ensures Primed(bits, input, p + 1, Hash3(bits, input[p], input[p + 1], input[p + 2]))
  {
    hide Update, Word;
    if p + 4 <= |input| {
      var a := Word(input[p + 1]);
      var b := Word(input[p + 2]);
      var c := Word(input[p + 3]);
      Forgets(bits, Update(bits, 0, Word(input[p])), a, b, c);
    }
  }

  lemma PrimedAfresh(bits: nat, input: seq<bv8>, p: nat, a: bv8, b: bv8)
    requires BitsOk(bits) && (p + 2 <= |input| ==> input[p] == a && input[p + 1] == b)
    ensures Primed(bits, input, p, Update(bits, Word(a), Word(b)))
  {
    hide Update, Word;
    FirstByte(bits, a);
  }

  // Matches and tokens.

  /** The `len` bytes at `at` repeat those at `from`. */
  ghost predicate Repeats(input: seq<bv8>, from: int, at: int, len: nat) {
    0 <= from < at && at + len <= |input| && input[from..from + len] == input[at..at + len]
  }

  lemma RepeatsFits(input: seq<bv8>, from: int, at: int, len: nat)
    requires Repeats(input, from, at, len)
    ensures from < at && at + len <= |input|
  {
  }

  lemma RepeatsShorter(input: seq<bv8>, from: int, at: int, len: nat, n: nat)
    requires Repeats(input, from, at, len) && n <= len
    ensures Repeats(input, from, at, n)
  {
    assert input[from..from + n] == input[from..from + len][..n];
    assert input[at..at + n] == input[at..at + len][..n];
  }

  lemma {:induction false} RepeatsExtend(input: seq<bv8>, from: nat, at: nat, len: nat)
    requires Repeats(input, from, at, len)
    ensures Extend(input[..at], at - from, len) == input[..at + len]
  {
    if len == 0 {
      assert input[..at + 0] == input[..at];
    } else {
      RepeatsShorter(input, from, at, len, len - 1);
      RepeatsExtend(input, from, at, len - 1);
      ExtendNext(input[..at], at - from, len - 1);
      var g := input[..at + len - 1];
      assert input[from + len - 1] == input[from..from + len][len - 1] == input[at..at + len][len - 1];
      assert g[|g| - (at - from)] == input[from + len - 1];
      assert input[..at + len] == g + [input[at + len - 1]];
    }
  }

  /** The ranges of section 3.2.5 of RFC 1951, distances being further limited by the window. */
  ghost predicate InRange(t: Token, w: nat) {
    t.Literal? || (t.Match? && MIN_MATCH <= t.length <= MAX_MATCH && 1 <= t.dist <= w - MIN_LOOKAHEAD)
  }

  /** Expanding the tokens gives the first n bytes of the input. */
  ghost predicate Covers(w: nat, tokens: seq<Token>, input: seq<bv8>, n: int) {
    && 0 <= n <= |input| && Decoded(tokens) == Some(input[..n])
    && forall i :: 0 <= i < |tokens| ==> InRange(tokens[i], w)
  }

  lemma CoversLiteral(w: nat, tokens: seq<Token>, input: seq<bv8>, n: int)
    requires Covers(w, tokens, input, n) && n < |input|
    ensures Covers(w, tokens + [Literal(input[n])], input, n + 1)
  {
    var all := tokens + [Literal(input[n])];
    assert all[..|all| - 1] == tokens;
    assert input[..n + 1] == input[..n] + [input[n]];
  }

  lemma CoversMatch(w: nat, tokens: seq<Token>, input: seq<bv8>, n: int, from: int, len: nat)
    requires Covers(w, tokens, input, n) && Repeats(input, from, n, len)
    requires InRange(Match(n - from, len), w)
    ensures Covers(w, tokens + [Match(n - from, len)], input, n + len)
  {
    var all := tokens + [Match(n - from, len)];
    assert all[..|all| - 1] == tokens;
    RepeatsExtend(input, from, n, len);
  }

  lemma CoversMore(w: nat, tokens: seq<Token>, input: seq<bv8>, n: int, s: seq<bv8>)
    requires Covers(w, tokens, input, n)
    ensures Covers(w, tokens, input + s, n)
  {
    assert (input + s)[..n] == input[..n];
  }

  lemma RepeatsMore(input: seq<bv8>, from: int, at: int, len: nat, s: seq<bv8>)
    requires Repeats(input, from, at, len)
    ensures Repeats(input + s, from, at, len)
  {
    var more := input + s;
    assert more[from..from + len] == input[from..from + len] && more[at..at + len] == input[at..at + len];
  }

  lemma SlotOf(w: nat, base: nat, str: nat)
    requires w > 0 && base % w == 0
    ensures (base + str) % w == str % w
  {
    var k := base / w;
    assert base + str == str + w * k;
    AddMultiple(w, str, k);
  }

  lemma {:induction false} AddMultiple(w: nat, x: nat, k: nat)
    requires w > 0
    ensures (x + w * k) % w == x % w
  {
    if k > 0 {
      AddMultiple(w, x, k - 1);
      assert x + w * k == x + w * (k - 1) + w;
      AddOnce(w, x + w * (k - 1));
    }
  }

  lemma AddOnce(w: nat, x: nat)
    requires w > 0
    ensures (x + w) % w == x % w
  {
    var q, r := x / w, x % w;
    assert x + w == w * (q + 1) + r;
    QuotientUnique(w, x + w, q + 1, r);
  }

  lemma QuotientUnique(w: nat, x: nat, q: nat, r: nat)
    requires w > 0 && r < w && x == w * q + r
    ensures x % w == r
  {
    var k := x / w - q;
    assert r - x % w == w * k;
    assert k >= 1 ==> w * k >= w;
    assert k <= -1 ==> w * (k + 1) <= 0;
  }

  /** The window and the chains agree with the input, and the next string to enter begins at p or later. */
  ghost predicate Sound(w: nat, bits: nat, d: Dict, win: seq<bv8>, head: seq<nat>, prev: seq<nat>, p: nat, h: word) {
    && w >= 512 && BitsOk(bits) && |head| == Entries(bits) && |prev| == w && d.base % w == 0
    && WindowIs(w, d, win) && Chains(w, bits, d, head, prev) && d.next <= p && Primed(bits, d.input, p, h)
  }

  /** What entering the string at window index `str` reads and leaves behind. */
  lemma SoundInsert(w: nat, bits: nat, d: Dict, win: seq<bv8>, head: seq<nat>, prev: seq<nat>, str: nat, h: word)
    requires Sound(w, bits, d, win, head, prev, d.base + str, h) && d.base + str + 3 <= |d.input|
    ensures |win| == 2 * w && str + 3 <= 2 * w && |prev| == w > 0
    ensures var p := d.base + str;
            var h' := Update(bits, h, Word(win[str + 2]));
            && h' as nat < |head|
            && Sound(w, bits, WithString(d, p), win, head[h' as nat := str], prev[str % w := head[h' as nat]], p + 1, h')
            && Points(bits, WithString(d, p), head[h' as nat], HashAt(bits, d.input, p), p)
  {
    hide HeadOk, PrevOk, Hash3, Update, Word, Points;
    var p := d.base + str;
    ChainsInsert(w, bits, d, head, prev, str);
    SlotOf(w, d.base, str);
    PrimedNext(bits, d.input, p);
  }

  lemma SoundSlide(w: nat, bits: nat, d: Dict, win: seq<bv8>, head: seq<nat>, prev: seq<nat>, p: nat, h: word,
                   win': seq<bv8>, head': seq<nat>, prev': seq<nat>)
    requires Sound(w, bits, d, win, head, prev, p, h) && d.base + w <= |d.input|
    requires |win| == 2 * w == |win'| && win'[..w] == win[w..]
    requires |head'| == |head| && forall i :: 0 <= i < |head| ==> head'[i] == Slid(w, head[i])
    requires |prev'| == |prev| && forall i :: 0 <= i < |prev| ==> prev'[i] == Slid(w, prev[i])
    ensures Sound(w, bits, d.(base := d.base + w), win', head', prev', p, h)
  {
    hide Chains, Primed, WindowIs;
    ChainsSlide(w, bits, d, head, prev, head', prev');
    WindowSlide(w, d, win, win');
    AddOnce(w, d.base);
  }

  lemma SoundMore(w: nat, bits: nat, d: Dict, win: seq<bv8>, head: seq<nat>, prev: seq<nat>, str: nat, h: word,
                  s: seq<bv8>, win': seq<bv8>, h': word)
    requires Sound(w, bits, d, win, head, prev, d.base + str, h) && |win| == |win'| == 2 * w
    requires d.base <= |d.input|
    requires var n := |d.input| - d.base; n + |s| <= 2 * w && win'[..n] == win[..n] && win'[n..n + |s|] == s
    requires str + 3 <= |d.input| - d.base + |s| ==> h' == Update(bits, Word(win'[str]), Word(win'[str + 1]))
    ensures Sound(w, bits, d.(input := d.input + s), win', head, prev, d.base + str, h')
  {
    hide Chains, Update, Hash3, Word;
    ChainsMore(w, bits, d, head, prev, s);
    WindowMore(w, d, win, s, win');
    var input := d.input + s;
    if str + 3 <= |input| - d.base { PrimedAfresh(bits, input, d.base + str, win'[str], win'[str + 1]); }
  }

  lemma SoundWindow(w: nat, bits: nat, d: Dict, win: seq<bv8>, head: seq<nat>, prev: seq<nat>, p: nat, h: word)
    requires Sound(w, bits, d, win, head, prev, p, h)
    ensures w >= 512 && WindowIs(w, d, win) && InsertedOk(d)
  {
  }

  // Searching for a match.

  /** A string before `str` was entered at `cur` with the same hash. */
  ghost predicate Candidate(bits: nat, d: Dict, str: nat, cur: nat) {
    && BitsOk(bits) && 0 < cur < str && d.base + str + 3 <= |d.input|
    && Entered(bits, d, d.base + cur, HashAt(bits, d.input, d.base + str))
  }

  lemma CandidateFacts(bits: nat, d: Dict, str: nat, cur: nat)
    requires Candidate(bits, d, str, cur)
    ensures 0 < cur < str && d.base + str + 3 <= |d.input|
  {
  }

  /** Every string entered between the window indices `cur` and `str` with the hash of the latter is on the list. */
  ghost predicate Covered(bits: nat, d: Dict, str: nat, cur: nat, list: seq<nat>) {
    && BitsOk(bits) && d.base + str + 3 <= |d.input|
    && var h := HashAt(bits, d.input, d.base + str);
       forall p: nat :: Entered(bits, d, p, h) && d.base + cur < p < d.base + str ==> p - d.base in list
  }

  /** Where the hash's head pointed before the string at `str` was entered is the first candidate, and none is missed. */
  lemma FirstCandidate(bits: nat, d: Dict, str: nat, q: nat)
    requires BitsOk(bits) && d.base + str + 3 <= |d.input|
    requires Points(bits, d, q, HashAt(bits, d.input, d.base + str), d.base + str)
    ensures q > 0 ==> Candidate(bits, d, str, q)
    ensures Covered(bits, d, str, q, [])
  {
    hide HashAt;
  }

  /** The chain leads from a candidate in reach to the one before it, or ends. */
  lemma NextCandidate(w: nat, bits: nat, d: Dict, win: seq<bv8>, head: seq<nat>, prev: seq<nat>, p: nat, h: word, str: nat, cur: nat, list: seq<nat>)
    requires Sound(w, bits, d, win, head, prev, p, h) && Candidate(bits, d, str, cur) && d.base + cur + w >= d.next
    ensures |prev| == w > 0 && prev[cur % w] < cur && (prev[cur % w] > 0 ==> Candidate(bits, d, str, prev[cur % w]))
    ensures Covered(bits, d, str, cur, list) ==> Covered(bits, d, str, prev[cur % w], list + [cur])
  {
    hide HashAt, HeadOk, Primed, WindowIs;
    SlotOf(w, d.base, cur);
    assert Link(bits, d, d.base + cur, prev[(d.base + cur) % w]);
  }

  /** The strings at `start` and `str` agree in n bytes of the window. */
  ghost predicate Agree(win: seq<bv8>, start: int, str: nat, n: nat) {
    0 <= start < str && str + n <= |win| && win[start..start + n] == win[str..str + n]
  }

  /** The byte that the search does not compare. */
  lemma ThirdAgrees(w: nat, bits: nat, d: Dict, win: seq<bv8>, str: nat, cur: nat)
    requires WindowIs(w, d, win) && Candidate(bits, d, str, cur) && str + 3 <= |win|
    requires win[cur] == win[str] && win[cur + 1] == win[str + 1]
    ensures Agree(win, cur, str, 3)
  {
    hide Hash3;
    var a, b := d.base + cur, d.base + str;
    ThirdByte(bits, d.input[b], d.input[b + 1], d.input[a + 2], d.input[b + 2]);
    assert win[cur..cur + 3] == win[str..str + 3];
  }

  lemma AgreeMore(win: seq<bv8>, start: int, str: nat, n: nat)
    requires Agree(win, start, str, n) && str + n < |win| && win[start + n] == win[str + n]
    ensures Agree(win, start, str, n + 1)
  {
    assert win[start..start + n + 1] == win[start..start + n] + [win[start + n]];
    assert win[str..str + n + 1] == win[str..str + n] + [win[str + n]];
  }

  lemma AgreeAt(win: seq<bv8>, start: int, str: nat, n: nat, i: nat)
    requires Agree(win, start, str, n) && i < n
    ensures win[start + i] == win[str + i]
  {
    assert win[start..start + n][i] == win[start + i] && win[str..str + n][i] == win[str + i];
  }

  lemma AgreeLess(win: seq<bv8>, start: int, str: nat, n: nat, m: nat)
    requires Agree(win, start, str, n) && m <= n
    ensures Agree(win, start, str, m)
  {
    assert win[start..start + m] == win[start..start + n][..m] && win[str..str + m] == win[str..str + n][..m];
  }

  /** No string of the list agrees with the one at `str` in more than n bytes, unless no longer match is possible. */
  ghost predicate NoneBetter(win: seq<bv8>, str: nat, list: seq<nat>, n: nat) {
    n >= MAX_MATCH || forall c :: c in list ==> !Agree(win, c, str, n + 1)
  }

  lemma NoneBetterMore(win: seq<bv8>, str: nat, list: seq<nat>, n: nat, c: nat, m: nat)
    requires NoneBetter(win, str, list, n) && n <= m && (m >= MAX_MATCH || !Agree(win, c, str, m + 1))
    ensures NoneBetter(win, str, list + [c], m)
  {
    hide Agree;
    if m < MAX_MATCH {
      forall b | b in list + [c] ensures !Agree(win, b, str, m + 1) {
        if Agree(win, b, str, m + 1) { AgreeLess(win, b, str, m + 1, n + 1); }
      }
    }
  }

  /** What repeats in the input agrees in the window. */
  lemma RepeatsAgree(w: nat, d: Dict, win: seq<bv8>, start: nat, str: nat, n: nat)
    requires WindowIs(w, d, win) && Repeats(d.input, d.base + start, d.base + str, n)
    ensures Agree(win, start, str, n)
  {
    var a, b := d.base + start, d.base + str;
    assert d.input[a..a + n] == win[start..start + n] && d.input[b..b + n] == win[str..str + n];
  }

  /** `Repeats` in terms of window indices. */
  ghost predicate RepeatsFrom(d: Dict, c: nat, str: nat, n: nat) {
    Repeats(d.input, d.base + c, d.base + str, n)
  }

  lemma NoLonger(w: nat, d: Dict, win: seq<bv8>, path: seq<nat>, c: nat, str: nat, n: nat, best: nat)
    requires WindowIs(w, d, win) && c in path && n <= MAX_MATCH && RepeatsFrom(d, c, str, n)
    requires NoneBetter(win, str, path, best)
    ensures n <= best && d.base + str + n <= |d.input|
  {
    RepeatsAgree(w, d, win, c, str, n);
    if n > best { AgreeLess(win, c, str, n, best + 1); }
  }

  lemma Differ(win: seq<bv8>, cur: int, str: nat, best: nat)
    requires Agree(win, cur, str, best + 1) && best >= 1
    ensures win[cur] == win[str] && win[cur + 1] == win[str + 1]
    ensures win[cur + best] == win[str + best] && win[cur + best - 1] == win[str + best - 1]
  {
    AgreeAt(win, cur, str, best + 1, 0);
    AgreeAt(win, cur, str, best + 1, 1);
    AgreeAt(win, cur, str, best + 1, best);
    AgreeAt(win, cur, str, best + 1, best - 1);
  }

  /** No string entered between `from` and `at` repeats at `at` for more than n bytes. */
  ghost predicate LongestOf(d: Dict, at: nat, from: nat, n: nat) {
    forall p: nat, m: nat ::
      p in d.inserted && from < p < at && MIN_MATCH <= m <= MAX_MATCH && Repeats(d.input, p, at, m) ==> m <= n
  }

  lemma NoRoom(d: Dict, at: nat, from: nat, n: nat)
    requires at + MIN_MATCH > |d.input|
    ensures LongestOf(d, at, from, n)
  {
  }

  lemma LongestOfAll(bits: nat, d: Dict, str: nat, limit: nat, path: seq<nat>, n: nat)
    requires InsertedOk(d) && Covered(bits, d, str, limit, path)
    requires forall c, m: nat :: c in path && m <= MAX_MATCH && RepeatsFrom(d, c, str, m) ==> m <= n
    ensures LongestOf(d, d.base + str, d.base + limit, n)
  {
    hide HashAt, Repeats;
    var at := d.base + str;
    forall p: nat, m: nat | p in d.inserted && d.base + limit < p < at && MIN_MATCH <= m <= MAX_MATCH && Repeats(d.input, p, at, m)
      ensures m <= n
    {
      RepeatsHash(bits, d.input, p, at, m);
      var c := p - d.base;
      assert Entered(bits, d, p, HashAt(bits, d.input, at));
      assert c in path && d.base + c == p;
      assert RepeatsFrom(d, c, str, m);
    }
  }

  lemma CoveredLess(bits: nat, d: Dict, str: nat, cur: nat, limit: nat, list: seq<nat>)
    requires Covered(bits, d, str, cur, list) && cur <= limit
    ensures Covered(bits, d, str, limit, list)
  {
    hide HashAt;
  }

  /** The candidates of a chain in the order in which they are linked, all of them within the limit. */
  ghost predicate OnChain(prev: seq<nat>, w: nat, first: nat, limit: nat, path: seq<nat>) {
    && w == |prev| > 0 && path != [] && path[0] == first
    && (forall i :: 0 <= i < |path| - 1 ==> path[i + 1] == prev[path[i] % w])
    && (forall i :: 1 <= i < |path| ==> path[i] > limit)
  }

  lemma OnChainNext(prev: seq<nat>, w: nat, first: nat, limit: nat, path: seq<nat>)
    requires OnChain(prev, w, first, limit, path) && prev[path[|path| - 1] % w] > limit
    ensures OnChain(prev, w, first, limit, path + [prev[path[|path| - 1] % w]])
  {
  }

  /** Candidates, the latest first, with none missed down to the last of them. */
  ghost predicate Row(bits: nat, d: Dict, str: nat, path: seq<nat>) {
    && path != [] && (forall i, j :: 0 <= i < j < |path| ==> path[j] < path[i])
    && (forall c :: c in path ==> Candidate(bits, d, str, c))
    && Covered(bits, d, str, path[|path| - 1], path)
  }

  lemma RowStart(bits: nat, d: Dict, str: nat, cur: nat)
    requires Candidate(bits, d, str, cur) && Covered(bits, d, str, cur, [])
    ensures Row(bits, d, str, [cur])
  {
    hide Candidate, HashAt;
  }

  lemma RowNext(bits: nat, d: Dict, str: nat, path: seq<nat>, cur: nat)
    requires Row(bits, d, str, path) && Candidate(bits, d, str, cur) && cur < path[|path| - 1]
    requires Covered(bits, d, str, cur, path)
    ensures Row(bits, d, str, path + [cur])
  {
    hide Candidate, HashAt;
  }

  /** The latest strings with the hash of the one at `str`, of which none repeats there for more than n bytes. */
  ghost predicate Tried(bits: nat, d: Dict, str: nat, path: seq<nat>, n: nat) {
    Row(bits, d, str, path) && forall c, m: nat :: c in path && m <= MAX_MATCH && RepeatsFrom(d, c, str, m) ==> m <= n
  }

  /** What is as long as the rest of the input is the longest of all. */
  lemma LongestAtEnd(d: Dict, at: nat, from: nat, n: nat)
    requires at + n >= |d.input|
    ensures LongestOf(d, at, from, n)
  {
  }

  /** The string entered at a place is not one of those before it. */
  lemma TriedBefore(bits: nat, d: Dict, str: nat, path: seq<nat>, n: nat)
    requires Tried(bits, WithString(d, d.base + str), str, path, n)
    ensures Tried(bits, d, str, path, n)
  {
    hide HashAt, Repeats;
    var e := WithString(d, d.base + str);
    forall c | c in path ensures Candidate(bits, d, str, c) { assert Candidate(bits, e, str, c); }
    CoveredBefore(bits, d, str, path[|path| - 1], path);
    forall c, m: nat | c in path && m <= MAX_MATCH && RepeatsFrom(d, c, str, m) ensures m <= n {
      assert RepeatsFrom(e, c, str, m);
    }
  }

  lemma CoveredBefore(bits: nat, d: Dict, str: nat, cur: nat, path: seq<nat>)
    requires Covered(bits, WithString(d, d.base + str), str, cur, path)
    ensures Covered(bits, d, str, cur, path)
  {
    hide HashAt;
    var e := WithString(d, d.base + str);
    var h := HashAt(bits, d.input, d.base + str);
    forall p: nat | Entered(bits, d, p, h) && d.base + cur < p < d.base + str ensures p - d.base in path {
      assert Entered(bits, e, p, h);
    }
  }

  lemma RepeatsHash(bits: nat, input: seq<bv8>, from: nat, at: nat, n: nat)
    requires BitsOk(bits) && Repeats(input, from, at, n) && n >= 3
    ensures HashAt(bits, input, from) == HashAt(bits, input, at)
  {
    hide Hash3;
    var a, b := input[from..from + n], input[at..at + n];
    assert a[0] == b[0] && a[1] == b[1] && a[2] == b[2];
    assert a[0] == input[from] && a[1] == input[from + 1] && a[2] == input[from + 2];
    assert b[0] == input[at] && b[1] == input[at + 1] && b[2] == input[at + 2];
  }

  lemma InWindow(w: nat, d: Dict, win: seq<bv8>, start: nat, len: nat)
    requires WindowIs(w, d, win) && d.base + start + len <= |d.input|
    ensures start + len <= |win| && win[start..start + len] == d.input[d.base + start..d.base + start + len]
  {
    var n := |d.input| - d.base;
    assert win[..n] == d.input[d.base..];
    assert win[..n][start..start + len] == win[start..start + len];
    assert d.input[d.base..][start..start + len] == d.input[d.base + start..d.base + start + len];
  }

  lemma Shorter(win: seq<bv8>, start: nat, n: nat, len: nat)
    requires len <= n && start + n <= |win|
    ensures win[start..start + n][..len] == win[start..start + len]
  {
  }

  /** As much of an agreement within the window as is input. */
  lemma AgreementRepeats(w: nat, d: Dict, win: seq<bv8>, start: int, str: nat, n: nat, len: nat)
    requires WindowIs(w, d, win) && Agree(win, start, str, n)
    requires len <= n && d.base + str + len <= |d.input|
    ensures Repeats(d.input, d.base + start, d.base + str, len)
  {
    InWindow(w, d, win, start, len);
    InWindow(w, d, win, str, len);
    Shorter(win, start, n, len);
    Shorter(win, str, n, len);
  }

  // Moving on without entering a string.

  /** Where fewer than three bytes are left there is nothing to enter. */
  lemma SoundSkip(w: nat, bits: nat, d: Dict, win: seq<bv8>, head: seq<nat>, prev: seq<nat>, p: nat, h: word)
    requires Sound(w, bits, d, win, head, prev, p, h) && p + 3 > |d.input|
    ensures Sound(w, bits, d, win, head, prev, p + 1, h)
  {
    hide Chains, WindowIs, Update, Hash3;
  }

  /** Past a long match the running hash starts afresh. */
  lemma SoundRestart(w: nat, bits: nat, d: Dict, win: seq<bv8>, head: seq<nat>, prev: seq<nat>, p: nat, h: word, str: nat)
    requires Sound(w, bits, d, win, head, prev, p, h) && p <= d.base + str && |win| == 2 * w && str + 2 <= 2 * w
    ensures Sound(w, bits, d, win, head, prev, d.base + str, Update(bits, Word(win[str]), Word(win[str + 1])))
  {
    hide Chains, Update, Hash3, Word;
    PrimedAfresh(bits, d.input, d.base + str, win[str], win[str + 1]);
  }

  lemma SoundStart(w: nat, bits: nat, win: seq<bv8>, head: seq<nat>, prev: seq<nat>, h: word)
    requires w >= 512 && BitsOk(bits) && |win| == 2 * w && |head| == Entries(bits) && |prev| == w
    requires forall i :: 0 <= i < |head| ==> head[i] == 0
    ensures Sound(w, bits, Dict(0, [], {}, 0), win, head, prev, 0, h)
  {
    hide Update, Hash3, HashAt;
  }

  lemma CoversStart(w: nat)
    ensures Covers(w, [], [], 0)
  {
  }
}
