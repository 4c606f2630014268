/** The string matching of deflate: window, hash chains, match search, and the fast and the lazy choice of tokens. */
module Lz77 {
  import opened Basics
  import opened Words
  import opened Lz77Hash
  import opened InflateWindow
  import opened Lz77State

  /** The tuning of the search. Lengths from `maxLazy` on are not bettered (fast: their strings not entered). */
  datatype Config = Config(goodMatch: nat, maxLazy: nat, niceMatch: nat, maxChain: nat, filtered: bool)

  function Least(a: nat, b: nat): nat { if a > b then b else a }

  class Deflater {
    const config: Config
    const w: nat
    const bits: nat
    const window: array<bv8>
    const head: array<nat>
    const prev: array<nat>
    var strstart: nat
    var lookahead: nat
    var insH: word
    var matchLength: nat
    var matchStart: int
    var matchAvailable: bool
    var availIn: seq<bv8>
    var tokens: seq<Token>
    ghost var d: Dict

    constructor (c: Config, wbits: nat, hashBits: nat)
      requires 9 <= wbits <= 15 && BitsOk(hashBits)
      ensures SlowOk() && FastOk() && w == Pow2(wbits) && tokens == [] && d.input == [] && availIn == []
      ensures fresh(window) && fresh(head) && fresh(prev)
    {
      hide Sound;
      config, w, bits := c, Pow2(wbits), hashBits;
      window := new bv8[2 * Pow2(wbits)](_ => 0);
      head := new nat[Entries(hashBits)](_ => 0);
      prev := new nat[Pow2(wbits)](_ => 0);
      strstart, lookahead, insH := 0, 0, 0;
      matchLength, matchStart, matchAvailable := MIN_MATCH - 1, 0, false;
      availIn, tokens, d := [], [], Dict(0, [], {}, 0);
      new;
      WindowSize(wbits);
      SoundStart(w, bits, window[..], head[..], prev[..], 0);
      CoversStart(w);
    }

    ghost predicate Apart() {
      var a: object, b: object, c: object := window, head, prev;
      a != b && a != c && b != c
    }

    ghost predicate Core(p: nat)
      reads this, window, head, prev
    {
      && Apart() && window.Length == 2 * w && BitsOk(bits) && head.Length == Entries(bits) && prev.Length == w > 0
      && Sound(w, bits, d, window[..], head[..], prev[..], p, insH)
    }

    /** Puts the string at strstart in front of the chain of a hash. */
    method Push(h: nat) returns (hashHead: nat)
      requires h < head.Length && prev.Length == w > 0 && Apart()
      modifies head, prev
      ensures hashHead == old(head[h])
      ensures head[..] == old(head[..])[h := strstart] && prev[..] == old(prev[..])[strstart % w := hashHead]
    {
      hashHead := head[h];
      prev[strstart % w] := hashHead;
      head[h] := strstart;
    }

    /** Enters the string at strstart and answers the last earlier one in the window with its hash, if there is one. */
    method Insert() returns (hashHead: nat)
      requires Core(d.base + strstart) && d.base + strstart + 3 <= |d.input|
      modifies this`insH, this`d, head, prev
      ensures Core(d.base + strstart + 1)
      ensures d == WithString(old(d), d.base + strstart)
      ensures Points(bits, d, hashHead, HashAt(bits, d.input, d.base + strstart), d.base + strstart)
    {
      hide Sound, Update, HashAt, Points;
      SoundInsert(w, bits, d, window[..], head[..], prev[..], strstart, insH);
      insH := Update(bits, insH, Word(window[strstart + 2]));
      ghost var win, heads, links := window[..], head[..], prev[..];
      hashHead := Push(insH as nat);
      assert window[..] == win;
      assert head[..] == heads[insH as nat := strstart];
      assert prev[..] == links[strstart % w := hashHead];
      d := WithString(d, d.base + strstart);
    }

    /** All of the input read is either behind strstart or ahead of it. */
    ghost predicate Ready()
      reads this, window, head, prev
    {
      Core(d.base + strstart) && |d.input| == d.base + strstart + lookahead
    }

    /** Table entries follow the window's slide; those that slide out of it end their chains. */
    static method SlideTable(t: array<nat>, w: nat)
      modifies t
      ensures forall i :: 0 <= i < t.Length ==> t[i] == Slid(w, old(t[i]))
    {
      for n := t.Length downto 0
        invariant forall i :: n <= i < t.Length ==> t[i] == Slid(w, old(t[i]))
        invariant forall i :: 0 <= i < n ==> t[i] == old(t[i])
      {
        var m := t[n];
        t[n] := if m >= w then m - w else 0;
      }
    }

    /** The window's upper half is copied over its lower half. */
    method MoveHalf()
      requires window.Length == 2 * w
      modifies window
      ensures window[..w] == old(window[w..])
    {
      for i := 0 to w
        invariant forall j :: 0 <= j < i ==> window[j] == old(window[w + j])
        invariant forall j :: w <= j < 2 * w ==> window[j] == old(window[j])
      {
        window[i] := window[w + i];
      }
    }

    /** Moves the window on by its half; positions in the input stay what they are. */
    method Slide()
      requires Ready() && strstart >= w + (w - MIN_LOOKAHEAD)
      modifies this`strstart, this`matchStart, this`d, window, head, prev
      ensures Ready() && d == old(d).(base := old(d.base) + w)
      ensures strstart == old(strstart) - w && matchStart == old(matchStart) - w
    {
      hide Sound;
      SoundWindow(w, bits, d, window[..], head[..], prev[..], d.base + strstart, insH);
      ghost var win, heads, links := window[..], head[..], prev[..];
      MoveHalf();
      SlideTable(head, w);
      SlideTable(prev, w);
      SoundSlide(w, bits, d, win, heads, links, d.base + strstart, insH, window[..], head[..], prev[..]);
      matchStart := matchStart - w;
      strstart := strstart - w;
      d := d.(base := d.base + w);
    }

    /** Reads as much input as is offered and fits, and starts the running hash afresh. */
    method ReadMore(more: nat)
      requires Ready() && more == 2 * w - lookahead - strstart && more > 0 && availIn != []
      modifies this`lookahead, this`insH, this`availIn, this`d, window
      ensures Ready() && d.base == old(d.base) && d.inserted == old(d.inserted) && d.next == old(d.next)
      ensures old(d.input) <= d.input && d.input + availIn == old(d.input + availIn) && |availIn| < |old(availIn)|
      ensures lookahead >= old(lookahead)
    {
      hide Sound, Update;
      ghost var win, h := window[..], insH;
      var n := if |availIn| > more then more else |availIn|;
      Load(availIn[..n], strstart + lookahead);
      if lookahead + n >= MIN_MATCH {
        insH := Update(bits, Word(window[strstart]), Word(window[strstart + 1]));
      }
      SoundMore(w, bits, d, win, head[..], prev[..], strstart, h, availIn[..n], window[..], insH);
      d := d.(input := d.input + availIn[..n]);
      lookahead := lookahead + n;
      availIn := availIn[n..];
    }

    method Load(s: seq<bv8>, at: nat)
      requires at + |s| <= window.Length
      modifies window
      ensures window[..at] == old(window[..at]) && window[at..at + |s|] == s
    {
      for i := 0 to |s|
        invariant window[..at] == old(window[..at])
        invariant forall j :: 0 <= j < i ==> window[at + j] == s[j]
      {
        window[at + i] := s[i];
      }
    }

    /** Refills the window, sliding it where it is nearly full. */
    method FillWindow()
      requires Ready() && lookahead < MIN_LOOKAHEAD
      modifies this`strstart, this`lookahead, this`insH, this`matchStart, this`availIn, this`d, window, head, prev
      ensures Ready() && d.base + strstart == old(d.base + strstart) && d.base + matchStart == old(d.base + matchStart)
      ensures old(d.input) <= d.input && d.input + availIn == old(d.input + availIn)
      ensures lookahead >= MIN_LOOKAHEAD || availIn == []
      ensures strstart <= 2 * w - MIN_LOOKAHEAD && (strstart > 0 || old(strstart) == 0)
    {
      hide Sound;
      SoundWindow(w, bits, d, window[..], head[..], prev[..], d.base + strstart, insH);
      while true
        invariant Ready() && lookahead < MIN_LOOKAHEAD && (strstart > 0 || old(strstart) == 0)
        invariant d.base + strstart == old(d.base + strstart) && d.base + matchStart == old(d.base + matchStart)
        invariant old(d.input) <= d.input && d.input + availIn == old(d.input + availIn)
        decreases |availIn|
      {
        SoundWindow(w, bits, d, window[..], head[..], prev[..], d.base + strstart, insH);
        var more := 2 * w - lookahead - strstart;
        if strstart >= w + (w - MIN_LOOKAHEAD) {
          Slide();
          more := more + w;
        }
        if availIn == [] { return; }
        ReadMore(more);
        if !(lookahead < MIN_LOOKAHEAD && availIn != []) { break; }
      }
      SoundWindow(w, bits, d, window[..], head[..], prev[..], d.base + strstart, insH);
    }

    /** The length of the agreement of the strings at `cur` and at strstart, known to be three at least. */
    method Compare(cur: nat) returns (len: nat)
      requires cur < strstart && strstart + MAX_MATCH < window.Length && Agree(window[..], cur, strstart, 3)
      ensures MIN_MATCH <= len <= MAX_MATCH && Agree(window[..], cur, strstart, len)
      ensures len < MAX_MATCH ==> !Agree(window[..], cur, strstart, len + 1)
    {
      hide Agree;
      len := 3;
      while len < MAX_MATCH && window[strstart + len] == window[cur + len]
        invariant 3 <= len <= MAX_MATCH && Agree(window[..], cur, strstart, len)
      {
        AgreeMore(window[..], cur, strstart, len);
        len := len + 1;
      }
      if len < MAX_MATCH && Agree(window[..], cur, strstart, len + 1) { AgreeAt(window[..], cur, strstart, len + 1, len); }
    }

    /** The quick test: whether a candidate may agree in more than `best` bytes. */
    method Promising(cur: nat, best: nat) returns (ok: bool)
      requires cur < strstart && strstart + MAX_MATCH < window.Length && 1 <= best <= MAX_MATCH
      ensures ok ==> window[..][cur] == window[..][strstart] && window[..][cur + 1] == window[..][strstart + 1]
      ensures !ok ==> !Agree(window[..], cur, strstart, best + 1)
    {
      hide Agree;
      ok := window[cur + best] == window[strstart + best] && window[cur + best - 1] == window[strstart + best - 1]
            && window[cur] == window[strstart] && window[cur + 1] == window[strstart + 1];
      if Agree(window[..], cur, strstart, best + 1) { Differ(window[..], cur, strstart, best); }
    }

    /** A candidate's agreement, if it can be longer than the best so far; otherwise zero. */
    method Try(cur: nat, best: nat) returns (len: nat)
      requires Core(d.base + strstart + 1) && Candidate(bits, d, strstart, cur)
      requires strstart + MAX_MATCH < 2 * w && 1 <= best <= MAX_MATCH
      ensures len == 0 || (MIN_MATCH <= len <= MAX_MATCH && Agree(window[..], cur, strstart, len))
      ensures var n := if len > best then len else best; n < MAX_MATCH ==> !Agree(window[..], cur, strstart, n + 1)
    {
      hide Sound, WindowIs, Candidate, Agree;
      CandidateFacts(bits, d, strstart, cur);
      var ok := Promising(cur, best);
      if !ok { return 0; }
      SoundWindow(w, bits, d, window[..], head[..], prev[..], d.base + strstart + 1, insH);
      ThirdAgrees(w, bits, d, window[..], strstart, cur);
      len := Compare(cur);
      if len <= best && Agree(window[..], cur, strstart, best + 1) { AgreeLess(window[..], cur, strstart, best + 1, len + 1); }
    }

    /** The next candidate of a chain, or zero. */
    method FollowChain(cur: nat, ghost tried: seq<nat>) returns (next: nat)
      requires Core(d.base + strstart + 1) && Candidate(bits, d, strstart, cur) && d.base + cur + w >= d.next
      requires Covered(bits, d, strstart, cur, tried)
      ensures next < cur && (next > 0 ==> Candidate(bits, d, strstart, next)) && next == prev[..][cur % w]
      ensures Covered(bits, d, strstart, next, tried + [cur])
    {
      hide Sound, Candidate, Covered;
      NextCandidate(w, bits, d, window[..], head[..], prev[..], d.base + strstart + 1, insH, strstart, cur, tried);
      next := prev[cur % w];
    }

    /** Why a search ends: the match is long enough, enough has been tried, or nothing in reach is left to try. */
    ghost predicate Exhausted(path: seq<nat>, best: nat, prevLength: nat, nice: nat, limit: nat, maxChain: int)
      reads this
    {
      (best > prevLength && best >= nice) || |path| == maxChain || Covered(bits, d, strstart, limit, path)
    }

    /** Follows the chain from `hashHead`; none of the candidates tried agrees in more bytes than the best. */
    method Search(hashHead: nat, prevLength: nat, maxChain: int, nice: nat, limit: nat)
      returns (best: nat, start: int, ghost path: seq<nat>)
      requires Core(d.base + strstart + 1) && d.next == d.base + strstart + 1
      requires hashHead > 0 && Begins(hashHead) && strstart - hashHead <= w - MIN_LOOKAHEAD
      requires strstart + MAX_MATCH < 2 * w && 2 <= prevLength <= MAX_MATCH && strstart - limit <= w - MIN_LOOKAHEAD
      ensures prevLength <= best <= MAX_MATCH
      ensures best > prevLength ==> strstart - start <= w - MIN_LOOKAHEAD && Agree(window[..], start, strstart, best)
      ensures OnChain(prev[..], w, hashHead, limit, path) && NoneBetter(window[..], strstart, path, best)
      ensures Row(bits, d, strstart, path)
      ensures Exhausted(path, best, prevLength, nice, limit, maxChain)
    {
      hide Sound, Candidate, Agree, OnChain, NoneBetter, Covered, Row;
      var chain, cur: nat := maxChain, hashHead;
      best, start := prevLength, matchStart;
      ghost var tried := [];
      path := [hashHead];
      PathStart(hashHead, limit, prevLength);
      RowStart(bits, d, strstart, hashHead);
      while true
        invariant Row(bits, d, strstart, path)
        invariant Candidate(bits, d, strstart, cur) && strstart - cur <= w - MIN_LOOKAHEAD
        invariant prevLength <= best <= MAX_MATCH
        invariant best > prevLength ==> strstart - start <= w - MIN_LOOKAHEAD && Agree(window[..], start, strstart, best)
        invariant path == tried + [cur] && OnChain(prev[..], w, hashHead, limit, path) && chain == maxChain - |tried|
        invariant NoneBetter(window[..], strstart, tried, best) && Covered(bits, d, strstart, cur, tried)
        decreases cur
      {
        var len := Try(cur, best);
        NoneBetterMore(window[..], strstart, tried, best, cur, if len > best then len else best);
        if len > best {
          start := cur;
          best := len;
          if len >= nice { break; }
        }
        cur := FollowChain(cur, tried);
        if cur <= limit {
          CoveredLess(bits, d, strstart, cur, limit, path);
          break;
        }
        chain := chain - 1;
        if chain == 0 { break; }
        OnChainNext(prev[..], w, hashHead, limit, path);
        RowNext(bits, d, strstart, path, cur);
        tried := path;
        path := path + [cur];
      }
    }

    lemma PathStart(first: nat, limit: nat, n: nat)
      requires prev.Length == w > 0
      ensures OnChain(prev[..], w, first, limit, [first]) && NoneBetter(window[..], strstart, [], n) && [] + [first] == [first]
    {
    }

    /**
     The longest match among the candidates tried that betters `prevLength`, and where it starts. It stays within the
     input even though the comparison runs into what lies behind it. Unless it is long enough or enough has been tried,
     it is the longest of all: no string entered in reach repeats for longer.
     */
    method LongestMatch(hashHead: nat, prevLength: nat) returns (length: nat, start: int, ghost path: seq<nat>)
      requires Core(d.base + strstart + 1) && |d.input| == d.base + strstart + lookahead && d.next == d.base + strstart + 1
      requires hashHead > 0 && Begins(hashHead) && strstart - hashHead <= w - MIN_LOOKAHEAD
      requires strstart <= 2 * w - MIN_LOOKAHEAD && 2 <= prevLength <= MAX_MATCH
      ensures 2 <= length <= lookahead && length <= MAX_MATCH
      ensures length > prevLength ==>
                Repeats(d.input, d.base + start, d.base + strstart, length) && strstart - start <= w - MIN_LOOKAHEAD
      ensures Tried(bits, d, strstart, path, length)
      ensures
        || (length > prevLength && length >= Least(config.niceMatch, lookahead))
        || |path| == (if prevLength >= config.goodMatch then config.maxChain / 4 else config.maxChain)
        || LongestOf(d, d.base + strstart, d.base + (if strstart > w - MIN_LOOKAHEAD then strstart - (w - MIN_LOOKAHEAD) else 0), length)
    {
      hide Sound, Candidate, Agree, Repeats, RepeatsFrom, WindowIs, NoneBetter, Covered, LongestOf, InsertedOk, Row;
      SoundWindow(w, bits, d, window[..], head[..], prev[..], d.base + strstart + 1, insH);
      CandidateFacts(bits, d, strstart, hashHead);
      var limit := if strstart > w - MIN_LOOKAHEAD then strstart - (w - MIN_LOOKAHEAD) else 0;
      var chain := if prevLength >= config.goodMatch then config.maxChain / 4 else config.maxChain;
      var nice := Least(config.niceMatch, lookahead);
      var best;
      best, start, path := Search(hashHead, prevLength, chain, nice, limit);
      length := if best <= lookahead then best else lookahead;
      if length > prevLength { AgreementRepeats(w, d, window[..], start, strstart, best, length); }
      forall c, n: nat | c in path && n <= MAX_MATCH && RepeatsFrom(d, c, strstart, n) ensures n <= length {
        NoLonger(w, d, window[..], path, c, strstart, n, best);
      }
      if Covered(bits, d, strstart, limit, path) { LongestOfAll(bits, d, strstart, limit, path, length); }
      if length == lookahead { LongestAtEnd(d, d.base + strstart, d.base + limit, length); }
    }

    /** Where a search at strstart may begin: at the last earlier string with the same hash, if there is one. */
    ghost predicate Begins(hashHead: nat)
      reads this
    {
      hashHead > 0 ==>
        && Candidate(bits, d, strstart, hashHead) && Covered(bits, d, strstart, hashHead, [])
        && d.next == d.base + strstart + 1
    }

    /** Enters the string at strstart if there are enough bytes for it. */
    method Enter() returns (hashHead: nat)
      requires Ready()
      modifies this`insH, this`d, head, prev
      ensures Core(d.base + strstart + 1) && d.base == old(d.base) && d.input == old(d.input)
      ensures Begins(hashHead) && (lookahead >= MIN_MATCH ==> Covered(bits, d, strstart, hashHead, []))
      ensures d == if lookahead >= MIN_MATCH then WithString(old(d), old(d.base) + strstart) else old(d)
    {
      hide Sound, Candidate, Points, HashAt, Covered;
      hashHead := 0;
      if lookahead >= MIN_MATCH {
        hashHead := Insert();
        FirstCandidate(bits, d, strstart, hashHead);
      } else {
        SoundSkip(w, bits, d, window[..], head[..], prev[..], d.base + strstart, insH);
      }
    }

    /** Moves over n bytes, entering the strings that begin there as far as there are enough bytes for them. */
    method EnterUpTo(n: nat, maxInsert: int)
      requires Core(d.base + strstart + 1) && maxInsert == |d.input| - d.base - MIN_MATCH
      modifies this`strstart, this`insH, this`d, head, prev
      ensures Core(d.base + strstart + 1) && d.base == old(d.base) && d.input == old(d.input) && strstart == old(strstart) + n
      ensures d.inserted == old(d.inserted) + Strings(|d.input|, d.base + old(strstart), d.base + strstart)
    {
      hide Sound, Points, HashAt;
      for i := 0 to n
        invariant Core(d.base + strstart + 1) && d.base == old(d.base) && d.input == old(d.input)
        invariant strstart == old(strstart) + i
        invariant d.inserted == old(d.inserted) + Strings(|d.input|, d.base + old(strstart), d.base + strstart)
      {
        strstart := strstart + 1;
        if strstart <= maxInsert {
          var hashHead := Insert();
        } else {
          SoundSkip(w, bits, d, window[..], head[..], prev[..], d.base + strstart, insH);
        }
      }
    }

    /** Emits the byte at a place in the window, the next one to be covered. */
    method TallyLiteral(i: nat, ghost p: nat)
      requires Core(p) && d.base + i < |d.input| && Covers(w, tokens, d.input, d.base + i)
      modifies this`tokens
      ensures Covers(w, tokens, d.input, d.base + i + 1) && tokens == old(tokens) + [Literal(d.input[d.base + i])]
    {
      hide Sound, Covers;
      SoundWindow(w, bits, d, window[..], head[..], prev[..], p, insH);
      CoversLiteral(w, tokens, d.input, d.base + i);
      tokens := tokens + [Literal(window[i])];
    }

    method TallyMatch(at: nat, start: int, length: nat)
      requires Covers(w, tokens, d.input, d.base + at) && Repeats(d.input, d.base + start, d.base + at, length)
      requires MIN_MATCH <= length <= MAX_MATCH && at - start <= w - MIN_LOOKAHEAD
      modifies this`tokens
      ensures Covers(w, tokens, d.input, d.base + at + length) && tokens == old(tokens) + [Match(at - start, length)]
    {
      hide Covers;
      CoversMatch(w, tokens, d.input, d.base + at, d.base + start, length);
      tokens := tokens + [Match(at - start, length)];
    }

    // The lazy choice of matches.

    /** A match of the length found, if any, begins at the window index `at`. */
    ghost predicate Found(at: int)
      reads this
    {
      && 2 <= matchLength <= MAX_MATCH
      && (matchLength >= MIN_MATCH ==>
            && Repeats(d.input, d.base + matchStart, d.base + at, matchLength)
            && at - matchStart <= w - MIN_LOOKAHEAD)
    }

    /**
     The tokens cover all that has been passed, less one byte if that is still undecided: it may begin the match that
     was found for it, unless the next byte begins a longer one.
     */
    ghost predicate SlowOk()
      reads this, window, head, prev
    {
      && Ready() && Covers(w, tokens, d.input, d.base + strstart - (if matchAvailable then 1 else 0))
      && Found(strstart - 1) && (matchLength >= MIN_MATCH ==> matchAvailable) && (matchAvailable ==> strstart > 0)
    }

    /** How far back a match may begin. */
    function Reach(at: nat): nat
    {
      if at > w - MIN_LOOKAHEAD then at - (w - MIN_LOOKAHEAD) else 0
    }

    /**
     Why a match of this length is settled for: it is an improvement as long as asked for, or as many candidates as are
     allowed, the latest ones, have been tried and none of them repeats for longer, or no string entered in reach does.
     */
    ghost predicate Settled(dict: Dict, at: nat, ahead: nat, tried: seq<nat>, prevLength: nat, length: nat) {
      || (length > prevLength && length >= Least(config.niceMatch, ahead))
      || (|tried| == (if prevLength >= config.goodMatch then config.maxChain / 4 else config.maxChain)
          && Tried(bits, dict, at, tried, length))
      || LongestOf(dict, dict.base + at, dict.base + Reach(at), length)
    }

    /** Where the search has nowhere to begin, no string in reach repeats at all. */
    lemma NothingInReach(hashHead: nat, tried: seq<nat>, prevLength: nat, length: nat)
      requires Core(d.base + strstart + 1) && |d.input| == d.base + strstart + lookahead && w >= MIN_LOOKAHEAD
      requires lookahead >= MIN_MATCH ==> Covered(bits, d, strstart, hashHead, [])
      requires hashHead == 0 || strstart - hashHead > w - MIN_LOOKAHEAD
      ensures Settled(d, strstart, lookahead, tried, prevLength, length)
    {
      hide Chains, WindowIs, Update, Hash3, HashAt, Repeats;
      if lookahead >= MIN_MATCH {
        CoreBig();
        CoveredLess(bits, d, strstart, hashHead, Reach(strstart), []);
        LongestOfAll(bits, d, strstart, Reach(strstart), [], length);
      } else {
        NoRoom(d, d.base + strstart, d.base + Reach(strstart), length);
      }
    }

    /** Looks for a match at strstart that is longer than the one at the byte before. */
    method FindLazy(hashHead: nat, prevLength: nat) returns (ghost longest: nat, ghost tried: seq<nat>)
      requires Core(d.base + strstart + 1) && |d.input| == d.base + strstart + lookahead
      requires Begins(hashHead) && (lookahead >= MIN_MATCH ==> Covered(bits, d, strstart, hashHead, []))
      requires strstart <= 2 * w - MIN_LOOKAHEAD && 2 <= prevLength <= MAX_MATCH
      modifies this`matchLength, this`matchStart
      ensures 2 <= matchLength <= MAX_MATCH && (matchLength > prevLength ==> Found(strstart))
      ensures prevLength < config.maxLazy ==> Settled(d, strstart, lookahead, tried, prevLength, longest)
      ensures longest > prevLength ==> Repeats(d.input, d.base + matchStart, d.base + strstart, longest)
      ensures matchLength == if prevLength >= config.maxLazy
                                || (longest <= 5 && (config.filtered || (longest == 3 && strstart - matchStart > 4096)))
                             then 2 else longest
    {
      hide Sound, Candidate, Repeats, LongestOf, RepeatsFrom, Covered;
      CoreBig();
      matchLength := MIN_MATCH - 1;
      longest, tried := 2, [];
      if hashHead != 0 && prevLength < config.maxLazy && strstart - hashHead <= w - MIN_LOOKAHEAD {
        var length, start, path := LongestMatch(hashHead, prevLength);
        longest, tried := length, path;
        matchLength, matchStart := length, start;
        if matchLength <= 5 && (config.filtered || (matchLength == MIN_MATCH && strstart - matchStart > TOO_FAR)) {
          matchLength := MIN_MATCH - 1;
        }
      } else if prevLength < config.maxLazy {
        NothingInReach(hashHead, tried, prevLength, longest);
      }
    }

    lemma CoreBig()
      requires Core(d.base + strstart + 1)
      ensures w >= 512 && InsertedOk(d)
    {
      hide Hash3, Update, HashAt;
    }

    /**
     One turn of the lazy loop: adopts the match at the byte before unless the one here is longer, or gives that byte
     up as a literal.
     */
    method SlowStep() returns (ghost longest: nat, ghost best: nat, ghost from: int, ghost tried: seq<nat>)
      requires SlowOk() && lookahead > 0 && strstart <= 2 * w - MIN_LOOKAHEAD
      modifies this`strstart, this`lookahead, this`insH, this`matchLength, this`matchStart, this`matchAvailable, this`tokens, this`d, head, prev
      ensures SlowOk() && d.input == old(d.input) && lookahead < old(lookahead)
      ensures old(matchLength) < config.maxLazy ==>
                Settled(old(d), old(strstart), old(lookahead), tried, old(matchLength), longest)
      ensures longest > old(matchLength) ==> Repeats(d.input, old(d.base) + from, old(d.base) + old(strstart), longest)
      ensures best == if old(matchLength) >= config.maxLazy
                         || (longest <= 5 && (config.filtered || (longest == 3 && old(strstart) - from > 4096)))
                      then 2 else longest
      ensures tokens == old(tokens) +
                if old(matchLength) >= 3 && best <= old(matchLength) then [Match(old(strstart) - 1 - old(matchStart), old(matchLength))]
                else if old(matchAvailable) then [Literal(d.input[old(d.base) + old(strstart) - 1])]
                else []
      ensures !(old(matchLength) >= 3 && best <= old(matchLength)) ==> matchLength == best && (best > old(matchLength) ==> matchStart == from)
    {
      hide Sound, Candidate, Repeats, Covers, Settled, Covered;
      var hashHead := Enter();
      SettledBefore(old(d), strstart, lookahead);
      var prevLength, prevMatch := matchLength, matchStart;
      longest, tried := FindLazy(hashHead, prevLength);
      best, from := matchLength, matchStart;
      if prevLength >= MIN_MATCH && matchLength <= prevLength {
        Adopt(prevLength, prevMatch);
      } else {
        if matchAvailable { TallyLiteral(strstart - 1, d.base + strstart + 1); } else { matchAvailable := true; }
        strstart := strstart + 1;
        lookahead := lookahead - 1;
      }
    }

    /** The string entered at a place is not one of those before it. */
    lemma SettledBefore(dict: Dict, at: nat, ahead: nat)
      ensures forall tried, prevLength, length ::
                Settled(WithString(dict, dict.base + at), at, ahead, tried, prevLength, length) ==>
                Settled(dict, at, ahead, tried, prevLength, length)
    {
      hide Repeats, Tried;
      forall tried, prevLength, length | Settled(WithString(dict, dict.base + at), at, ahead, tried, prevLength, length)
        ensures Settled(dict, at, ahead, tried, prevLength, length)
      {
        if Tried(bits, WithString(dict, dict.base + at), at, tried, length) { TriedBefore(bits, dict, at, tried, length); }
      }
    }

    /** Emits the match at the byte before strstart and enters the strings it spans. */
    method Adopt(prevLength: nat, prevMatch: int)
      requires Core(d.base + strstart + 1) && |d.input| == d.base + strstart + lookahead && strstart > 0
      requires Covers(w, tokens, d.input, d.base + strstart - 1)
      requires MIN_MATCH <= prevLength <= MAX_MATCH && Repeats(d.input, d.base + prevMatch, d.base + strstart - 1, prevLength)
      requires strstart - 1 - prevMatch <= w - MIN_LOOKAHEAD
      modifies this`strstart, this`lookahead, this`insH, this`matchLength, this`matchAvailable, this`tokens, this`d, head, prev
      ensures SlowOk() && d.input == old(d.input) && lookahead < old(lookahead)
      ensures tokens == old(tokens) + [Match(old(strstart) - 1 - prevMatch, prevLength)]
      ensures strstart == old(strstart) + prevLength - 1
      ensures d.inserted == old(d.inserted) + Strings(|d.input|, d.base + old(strstart), d.base + strstart - 1)
    {
      hide Sound, Covers, Repeats;
      RepeatsFits(d.input, d.base + prevMatch, d.base + strstart - 1, prevLength);
      var maxInsert := strstart + lookahead - MIN_MATCH;
      TallyMatch(strstart - 1, prevMatch, prevLength);
      lookahead := lookahead - (prevLength - 1);
      EnterUpTo(prevLength - 2, maxInsert);
      matchAvailable := false;
      matchLength := MIN_MATCH - 1;
      strstart := strstart + 1;
    }

    /** Refilling the window leaves the decisions pending as they are. */
    method SlowFill()
      requires SlowOk() && lookahead < MIN_LOOKAHEAD
      modifies this`strstart, this`lookahead, this`insH, this`matchStart, this`availIn, this`d, window, head, prev
      ensures SlowOk() && d.input + availIn == old(d.input + availIn)
      ensures lookahead >= MIN_LOOKAHEAD || availIn == []
      ensures strstart <= 2 * w - MIN_LOOKAHEAD && lookahead + |availIn| == old(lookahead + |availIn|)
    {
      hide Sound, Repeats, Covers;
      ghost var input, at, from := d.input, d.base + strstart, d.base + matchStart;
      FillWindow();
      ghost var s := d.input[|input|..];
      assert d.input == input + s;
      CoversMore(w, tokens, input, at - (if matchAvailable then 1 else 0), s);
      if matchLength >= MIN_MATCH { RepeatsMore(input, from, at - 1, matchLength, s); }
    }

    /**
     Compresses what is offered, as far as it may: to the last byte if asked to flush, unless the output fills up.
     */
    method DeflateSlow(flush: bool) returns (done: bool)
      requires SlowOk()
      modifies this, window, head, prev
      ensures SlowOk() && d.input + availIn == old(d.input + availIn)
      ensures flush && !done ==> lookahead + |availIn| < old(lookahead + |availIn|)
      ensures done ==> flush && availIn == [] && lookahead == 0 && !matchAvailable && Covers(w, tokens, d.input, |d.input|)
    {
      hide Sound, Repeats, Covers;
      done := false;
      while true
        invariant SlowOk() && d.input + availIn == old(d.input + availIn)
        invariant lookahead + |availIn| <= old(lookahead + |availIn|)
        decreases lookahead + |availIn|
      {
        if lookahead < MIN_LOOKAHEAD {
          SlowFill();
          if lookahead < MIN_LOOKAHEAD && !flush { return; }
          if lookahead == 0 { break; }
        }
        SlowBound();
        ghost var longest, best, from, tried := SlowStep();
        var full := *;
        if full { return; }
      }
      if matchAvailable {
        TallyLiteral(strstart - 1, d.base + strstart);
        if matchLength >= MIN_MATCH { RepeatsFits(d.input, d.base + matchStart, d.base + strstart - 1, matchLength); }
        matchAvailable := false;
      }
      done := flush;
    }

    lemma SlowBound()
      requires Ready() && (lookahead >= MIN_LOOKAHEAD || strstart <= 2 * w - MIN_LOOKAHEAD)
      ensures strstart <= 2 * w - MIN_LOOKAHEAD
    {
    }

    // The fast choice of matches.

    /** Without lazy decisions the tokens cover exactly what has been passed. */
    ghost predicate FastOk()
      reads this, window, head, prev
    {
      Ready() && Covers(w, tokens, d.input, d.base + strstart) && matchLength < MIN_MATCH
    }

    /** Moves over the strings of a match that are all entered. */
    method EnterRun(n: nat)
      requires Core(d.base + strstart + 1) && d.base + strstart + n + MIN_MATCH <= |d.input|
      modifies this`strstart, this`insH, this`d, head, prev
      ensures Core(d.base + strstart + 1) && d.base == old(d.base) && d.input == old(d.input) && strstart == old(strstart) + n
    {
      hide Sound, Points, HashAt;
      for i := 0 to n
        invariant Core(d.base + strstart + 1) && d.base == old(d.base) && d.input == old(d.input)
        invariant strstart == old(strstart) + i
      {
        strstart := strstart + 1;
        var hashHead := Insert();
      }
    }

    /** Moves past a match without entering its strings. */
    method SkipRun(n: nat)
      requires Core(d.base + strstart + 1) && n > 0 && strstart + n + 2 <= 2 * w
      modifies this`strstart, this`insH
      ensures Core(d.base + strstart) && strstart == old(strstart) + n
    {
      hide Sound, Update;
      SoundRestart(w, bits, d, window[..], head[..], prev[..], d.base + strstart + 1, insH, strstart + n);
      strstart := strstart + n;
      insH := Update(bits, Word(window[strstart]), Word(window[strstart + 1]));
    }

    /** Looks for a match at strstart of three bytes at least. */
    method FindFast(hashHead: nat) returns (ghost tried: seq<nat>)
      requires Core(d.base + strstart + 1) && |d.input| == d.base + strstart + lookahead
      requires Begins(hashHead) && (lookahead >= MIN_MATCH ==> Covered(bits, d, strstart, hashHead, []))
      requires strstart <= 2 * w - MIN_LOOKAHEAD && matchLength < MIN_MATCH
      modifies this`matchLength, this`matchStart
      ensures matchLength >= MIN_MATCH ==> Found(strstart) && matchLength <= lookahead && matchStart < strstart
      ensures Settled(d, strstart, lookahead, tried, MIN_MATCH - 1, matchLength)
    {
      hide Sound, Candidate, Repeats, Covered, LongestOf, RepeatsFrom;
      CoreBig();
      tried := [];
      if hashHead != 0 && strstart - hashHead <= w - MIN_LOOKAHEAD {
        var length, start, path := LongestMatch(hashHead, MIN_MATCH - 1);
        matchLength, matchStart, tried := length, start, path;
        if matchLength >= MIN_MATCH { RepeatsFits(d.input, d.base + matchStart, d.base + strstart, matchLength); }
      } else {
        NothingInReach(hashHead, tried, MIN_MATCH - 1, matchLength);
      }
    }

    /** One turn of the fast loop: a match if there is one, otherwise a literal. */
    method FastStep() returns (ghost found: nat, ghost from: int, ghost tried: seq<nat>)
      requires FastOk() && lookahead > 0 && strstart <= 2 * w - MIN_LOOKAHEAD
      modifies this`strstart, this`lookahead, this`insH, this`matchLength, this`matchStart, this`tokens, this`d, head, prev
      ensures FastOk() && d.input == old(d.input) && lookahead < old(lookahead)
      ensures Settled(old(d), old(strstart), old(lookahead), tried, 2, found) && (found >= 3 ==> from < old(strstart))
      ensures tokens == old(tokens) +
                [if found >= 3 then Match(old(strstart) - from, found) else Literal(d.input[old(d.base) + old(strstart)])]
    {
      hide Sound, Repeats, Covers, Begins, Settled, Covered;
      var hashHead := Enter();
      SettledBefore(old(d), strstart, lookahead);
      tried := FindFast(hashHead);
      found, from := matchLength, matchStart;
      if matchLength >= MIN_MATCH {
        TallyMatch(strstart, matchStart, matchLength);
        lookahead := lookahead - matchLength;
        if matchLength <= config.maxLazy && lookahead >= MIN_MATCH {
          EnterRun(matchLength - 1);
          matchLength := 0;
          strstart := strstart + 1;
        } else {
          SkipRun(matchLength);
          matchLength := 0;
        }
      } else {
        TallyLiteral(strstart, d.base + strstart + 1);
        lookahead := lookahead - 1;
        strstart := strstart + 1;
      }
    }

    method FastFill()
      requires FastOk() && lookahead < MIN_LOOKAHEAD
      modifies this`strstart, this`lookahead, this`insH, this`matchStart, this`availIn, this`d, window, head, prev
      ensures FastOk() && d.input + availIn == old(d.input + availIn)
      ensures lookahead >= MIN_LOOKAHEAD || availIn == []
      ensures strstart <= 2 * w - MIN_LOOKAHEAD && lookahead + |availIn| == old(lookahead + |availIn|)
    {
      hide Sound, Covers;
      ghost var input, at := d.input, d.base + strstart;
      FillWindow();
      assert d.input == input + d.input[|input|..];
      CoversMore(w, tokens, input, at, d.input[|input|..]);
    }

    method DeflateFast(flush: bool) returns (done: bool)
      requires FastOk()
      modifies this, window, head, prev
      ensures FastOk() && d.input + availIn == old(d.input + availIn)
      ensures flush && !done ==> lookahead + |availIn| < old(lookahead + |availIn|)
      ensures done ==> flush && availIn == [] && lookahead == 0 && Covers(w, tokens, d.input, |d.input|)
    {
      hide Sound, Covers;
      done := false;
      while true
        invariant FastOk() && d.input + availIn == old(d.input + availIn)
        invariant lookahead + |availIn| <= old(lookahead + |availIn|)
        decreases lookahead + |availIn|
      {
        if lookahead < MIN_LOOKAHEAD {
          FastFill();
          if lookahead < MIN_LOOKAHEAD && !flush { return; }
          if lookahead == 0 { break; }
        }
        SlowBound();
        ghost var found, from, tried := FastStep();
        var full := *;
        if full { return; }
      }
      done := flush;
    }

    /** The end of a full flush: the table forgets the input so far, and the window starts anew. */
    method Forget(lazy: bool) returns (segment: seq<Token>)
      requires if lazy then SlowOk() && !matchAvailable else FastOk()
      requires lookahead == 0 && availIn == [] && w >= 512
      modifies this`strstart, this`d, this`tokens, head
      ensures (if lazy then SlowOk() else FastOk()) && d.input == [] && tokens == [] && segment == old(tokens)
    {
      hide Sound;
      for h := 0 to head.Length
        invariant tokens == old(tokens) && forall i :: 0 <= i < h ==> head[i] == 0
      {
        head[h] := 0;
      }
      strstart := 0;
      segment, tokens, d := tokens, [], Dict(0, [], {}, 0);
      SoundStart(w, bits, window[..], head[..], prev[..], insH);
      CoversStart(w);
    }
  }

  lemma WindowSize(wbits: nat)
    requires 9 <= wbits
    ensures Pow2(wbits) >= 512
  {
    if wbits == 9 {
      assert Pow2(9) == 8 * Pow2(6) && Pow2(6) == 8 * Pow2(3) && Pow2(3) == 8 * Pow2(0);
    } else {
      WindowSize(wbits - 1);
    }
  }

  function Joined<T>(chunks: seq<seq<T>>): seq<T> {
    if chunks == [] then [] else Joined(chunks[..|chunks| - 1]) + chunks[|chunks| - 1]
  }

  /** What is asked for besides compressing: nothing, all the output there is, or that and to forget the input so far. */
  datatype Flush = NoFlush | SyncFlush | FullFlush

  /** A call of the compressor with more input. */
  method Feed(z: Deflater, lazy: bool, chunk: seq<bv8>, flush: bool) returns (done: bool)
    requires if lazy then z.SlowOk() else z.FastOk()
    modifies z, z.window, z.head, z.prev
    ensures if lazy then z.SlowOk() else z.FastOk()
    ensures z.d.input + z.availIn == old(z.d.input + z.availIn) + chunk
    ensures flush && !done ==> z.lookahead + |z.availIn| < old(z.lookahead + |z.availIn|) + |chunk|
    ensures done ==> z.availIn == [] && z.lookahead == 0 && Covers(z.w, z.tokens, z.d.input, |z.d.input|)
    ensures done && lazy ==> !z.matchAvailable
  {
    hide Sound, Covers, Repeats;
    z.availIn := z.availIn + chunk;
    if lazy { done := z.DeflateSlow(flush); } else { done := z.DeflateFast(flush); }
  }

  /** The parts of the input, and the tokens made of each between two full flushes, which mean that part by themselves. */
  ghost predicate Sealed(w: nat, segments: seq<seq<Token>>, parts: seq<seq<bv8>>) {
    |segments| == |parts| && forall i :: 0 <= i < |parts| ==> Covers(w, segments[i], parts[i], |parts[i]|)
  }

  /** A call that may flush, and if it flushes fully and gets to the end, seals the tokens made since the last such call. */
  method Call(z: Deflater, lazy: bool, chunk: seq<bv8>, flush: Flush, segments: seq<seq<Token>>, ghost parts: seq<seq<bv8>>)
    returns (segments': seq<seq<Token>>, ghost parts': seq<seq<bv8>>)
    requires (if lazy then z.SlowOk() else z.FastOk()) && z.w >= 512 && Sealed(z.w, segments, parts)
    modifies z, z.window, z.head, z.prev
    ensures (if lazy then z.SlowOk() else z.FastOk()) && Sealed(z.w, segments', parts')
    ensures Joined(parts') + (z.d.input + z.availIn) == Joined(parts) + old(z.d.input + z.availIn) + chunk
  {
    hide Sound, Covers, Repeats, Joined, Sealed;
    segments', parts' := segments, parts;
    var done := Feed(z, lazy, chunk, flush != NoFlush);
    assert Joined(parts) + old(z.d.input + z.availIn) + chunk == Joined(parts) + (z.d.input + z.availIn);
    var full := *;
    if done && !full && flush == FullFlush {
      SealedMore(z.w, segments, parts, z.tokens, z.d.input);
      parts' := parts + [z.d.input];
      assert z.d.input + [] == z.d.input;
      var segment := z.Forget(lazy);
      segments' := segments + [segment];
      assert Joined(parts') + ([] + []) == Joined(parts');
    }
  }

  /**
   However the input is cut into calls, and whichever of them flush, fully or not, or stop for want of output space, the
   tokens of either compressor expand to exactly the input, with lengths and distances in the ranges of the format; and
   the tokens between two full flushes expand to their part of the input by themselves.
   */
  method Compress(config: Config, wbits: nat, hashBits: nat, lazy: bool, chunks: seq<seq<bv8>>, flushes: nat -> Flush)
    returns (segments: seq<seq<Token>>, ghost parts: seq<seq<bv8>>)
    requires 9 <= wbits <= 15 && BitsOk(hashBits)
    ensures Joined(parts) == Joined(chunks) && Sealed(Pow2(wbits), segments, parts)
    ensures Decoded(Joined(segments)) == Some(Joined(chunks))
    ensures forall i :: 0 <= i < |Joined(segments)| ==> InRange(Joined(segments)[i], Pow2(wbits))
    ensures forall t :: t in Joined(segments) ==>
              t.Literal? || (t.Match? && 3 <= t.length <= 258 && 1 <= t.dist <= Pow2(wbits) - 262)
  {
    hide Sound, Covers, Repeats, InRange, Decoded, Sealed, Joined;
    WindowSize(wbits);
    NothingSealed(Pow2(wbits));
    var z := new Deflater(config, wbits, hashBits);
    segments, parts := [], [];
    for i := 0 to |chunks|
      invariant fresh(z.window) && fresh(z.head) && fresh(z.prev) && z.w == Pow2(wbits)
      invariant if lazy then z.SlowOk() else z.FastOk()
      invariant Sealed(z.w, segments, parts) && Joined(parts) + (z.d.input + z.availIn) == Joined(chunks[..i])
    {
      JoinedMore(chunks[..i], chunks[i]);
      assert chunks[..i + 1] == chunks[..i] + [chunks[i]];
      segments, parts := Call(z, lazy, chunks[i], flushes(i), segments, parts);
    }
    assert chunks[..|chunks|] == chunks;
    var done := false;
    while !done
      invariant fresh(z.window) && fresh(z.head) && fresh(z.prev) && z.w == Pow2(wbits)
      invariant if lazy then z.SlowOk() else z.FastOk()
      invariant Sealed(z.w, segments, parts) && Joined(parts) + (z.d.input + z.availIn) == Joined(chunks)
      invariant done ==> z.availIn == [] && Covers(z.w, z.tokens, z.d.input, |z.d.input|)
      decreases !done, z.lookahead + |z.availIn|
    {
      done := Feed(z, lazy, [], true);
    }
    SealedMore(z.w, segments, parts, z.tokens, z.d.input);
    segments, parts := segments + [z.tokens], parts + [z.d.input];
    SealedTogether(z.w, segments, parts);
    InFormatRange(Joined(segments), z.w);
  }

  lemma InFormatRange(tokens: seq<Token>, w: nat)
    requires forall i :: 0 <= i < |tokens| ==> InRange(tokens[i], w)
    ensures forall t :: t in tokens ==> t.Literal? || (t.Match? && 3 <= t.length <= 258 && 1 <= t.dist <= w - 262)
  {
  }

  lemma NothingSealed(w: nat)
    ensures Sealed(w, [], []) && Joined<bv8>([]) == []
  {
  }

  lemma JoinedMore<T>(chunks: seq<seq<T>>, chunk: seq<T>)
    ensures Joined(chunks + [chunk]) == Joined(chunks) + chunk
  {
    assert (chunks + [chunk])[..|chunks|] == chunks;
  }

  lemma SealedMore(w: nat, segments: seq<seq<Token>>, parts: seq<seq<bv8>>, tokens: seq<Token>, input: seq<bv8>)
    requires Sealed(w, segments, parts) && Covers(w, tokens, input, |input|)
    ensures Sealed(w, segments + [tokens], parts + [input]) && Joined(parts + [input]) == Joined(parts) + input
  {
    hide Covers;
    JoinedMore(parts, input);
  }

  lemma DecodedLast(tokens: seq<Token>, token: Token)
    ensures Decoded(tokens + [token]) ==
            if Decoded(tokens) == None then None else Meant(Decoded(tokens).value, token)
  {
    hide Extend;
    assert (tokens + [token])[..|tokens|] == tokens;
  }

  lemma MeantBehind(g: seq<bv8>, h: seq<bv8>, token: Token)
    requires Meant(h, token).Some?
    ensures Meant(g + h, token) == Some(g + Meant(h, token).value)
  {
    match token
    case Literal(b) => assert g + h + [b] == g + (h + [b]);
    case Stored(bytes) => assert g + h + bytes == g + (h + bytes);
    case Match(dist, length) => ExtendBehind(g, h, dist, length);
  }

  /** Tokens that mean something by themselves mean the same behind others. */
  lemma {:induction false} DecodedBehind(s: seq<Token>, t: seq<Token>)
    requires Decoded(s).Some? && Decoded(t).Some?
    ensures Decoded(s + t) == Some(Decoded(s).value + Decoded(t).value)
    decreases |t|
  {
    if t == [] {
      assert s + t == s && Decoded(s).value + [] == Decoded(s).value;
    } else {
      hide Decoded, Meant;
      var front, last := t[..|t| - 1], t[|t| - 1];
      assert t == front + [last] && s + t == s + front + [last];
      DecodedLast(front, last);
      DecodedBehind(s, front);
      DecodedLast(s + front, last);
      MeantBehind(Decoded(s).value, Decoded(front).value, last);
    }
  }

  lemma {:induction false} ExtendBehind(g: seq<bv8>, h: seq<bv8>, dist: nat, len: nat)
    requires 0 < dist <= |h|
    ensures Extend(g + h, dist, len) == g + Extend(h, dist, len)
    decreases len
  {
    if len > 0 {
      var b := h[|h| - dist];
      assert (g + h)[|g + h| - dist] == b && g + h + [b] == g + (h + [b]);
      ExtendBehind(g, h + [b], dist, len - 1);
    }
  }

  lemma {:induction false} SealedTogether(w: nat, segments: seq<seq<Token>>, parts: seq<seq<bv8>>)
    requires Sealed(w, segments, parts)
    ensures Decoded(Joined(segments)) == Some(Joined(parts))
    ensures forall i :: 0 <= i < |Joined(segments)| ==> InRange(Joined(segments)[i], w)
    decreases |parts|
  {
    if parts != [] {
      var n := |parts| - 1;
      SealedTogether(w, segments[..n], parts[..n]);
      CoversAll(w, segments[n], parts[n]);
      DecodedBehind(Joined(segments[..n]), segments[n]);
    }
  }

  lemma CoversAll(w: nat, tokens: seq<Token>, input: seq<bv8>)
    requires Covers(w, tokens, input, |input|)
    ensures Decoded(tokens) == Some(input) && forall i :: 0 <= i < |tokens| ==> InRange(tokens[i], w)
  {
    assert input[..|input|] == input;
  }

  /** What the compressor makes of an input, the decompressor makes into it again. */
  method RoundTrip(config: Config, wbits: nat, hashBits: nat, lazy: bool, chunks: seq<seq<bv8>>, flushes: nat -> Flush)
    returns (output: seq<bv8>)
    requires 9 <= wbits <= 15 && BitsOk(hashBits)
    ensures output == Joined(chunks)
  {
    var segments, parts := Compress(config, wbits, hashBits, lazy, chunks, flushes);
    var tokens := Joined(segments);
    WindowSize(wbits);
    var used, part;
    output, used, part := Inflate(wbits, tokens);
    DecodedPrefix(tokens, used);
    assert used == |tokens|;
    assert tokens[..used] + [] == tokens;
  }

  /** Where the whole has a meaning, so has every beginning of it. */
  lemma {:induction false} DecodedPrefix(tokens: seq<Token>, n: nat)
    requires Decoded(tokens) != None && n <= |tokens|
    ensures Decoded(tokens[..n]) != None && (n < |tokens| ==> Decoded(tokens[..n + 1]) != None)
  {
    if n == |tokens| {
      assert tokens[..n] == tokens;
    } else {
      var front := tokens[..|tokens| - 1];
      DecodedPrefix(front, n);
      assert front[..n] == tokens[..n];
      if n + 1 < |tokens| { assert front[..n + 1] == tokens[..n + 1]; } else { assert tokens[..n + 1] == tokens; }
    }
  }
}
