/** What inflate keeps of its output: the circular window, and the copying of matches out of it and out of the output. */
module InflateWindow {
  import opened Basics

  /** Section 3.2.3 of RFC 1951: each byte of a match is the byte `dist` places back, which it may itself have written. */
  ghost function Extend(h: seq<bv8>, dist: nat, len: nat): (r: seq<bv8>)
    requires 0 < dist <= |h|
    ensures |r| == |h| + len
    decreases len
  {
    if len == 0 then h else Extend(h + [h[|h| - dist]], dist, len - 1)
  }

  lemma {:induction false} ExtendTwice(h: seq<bv8>, dist: nat, m: nat, n: nat)
    requires 0 < dist <= |h|
    ensures Extend(h, dist, m + n) == Extend(Extend(h, dist, m), dist, n)
    decreases m
  {
    if m > 0 { ExtendTwice(h + [h[|h| - dist]], dist, m - 1, n); }
  }

  /** The rule as the standard puts it, for every byte at once. */
  lemma {:induction false} ExtendAt(h: seq<bv8>, dist: nat, len: nat)
    requires 0 < dist <= |h|
    ensures Extend(h, dist, len)[..|h|] == h
    ensures forall n :: |h| <= n < |h| + len ==> Extend(h, dist, len)[n] == Extend(h, dist, len)[n - dist]
    decreases len
  {
    if len > 0 {
      var g := h + [h[|h| - dist]];
      ExtendAt(g, dist, len - 1);
      var r := Extend(h, dist, len);
      assert r[..|g|] == g;
      assert r[..|h|] == r[..|g|][..|h|];
      assert r[|h|] == r[..|g|][|h|] && r[|h| - dist] == r[..|g|][|h| - dist];
    }
  }

  lemma ExtendNext(h: seq<bv8>, dist: nat, n: nat)
    requires 0 < dist <= |h|
    ensures var g := Extend(h, dist, n); Extend(h, dist, n + 1) == g + [g[|g| - dist]]
  {
    var g := Extend(h, dist, n);
    ExtendTwice(h, dist, n, 1);
    assert Extend(g, dist, 1) == Extend(g + [g[|g| - dist]], dist, 0);
  }

  lemma ExtendLonger(h: seq<bv8>, dist: nat, n: nat)
    requires 0 < dist <= |h|
    ensures |Extend(h, dist, n)| == |h| + n
  {
  }

  /** Where in a circular window of `size` bytes, next written at `next`, the byte `d` places back is. */
  function Slot(size: nat, next: nat, d: nat): int {
    if d <= next then next - d else size + next - d
  }

  /** The window holds the last `have` bytes of the past, in rotated order. */
  ghost predicate WindowOk(w: seq<bv8>, wsize: nat, wnext: nat, whave: nat, past: seq<bv8>) {
    if wsize == 0 then whave == 0 && past == []
    else
      && |w| == wsize && wnext < wsize
      && whave == (if |past| < wsize then |past| else wsize)
      && (whave < wsize ==> wnext == whave)
      && forall d :: 1 <= d <= whave ==> w[Slot(wsize, wnext, d)] == past[|past| - d]
  }

  /** Bytes written from the place `next` on, wrapping round, become the newest of the past. */
  lemma WindowAppend(w: seq<bv8>, wsize: nat, wnext: nat, whave: nat, past: seq<bv8>, s: seq<bv8>, w': seq<bv8>,
                     wnext': nat)
    requires WindowOk(w, wsize, wnext, whave, past) && |s| < wsize && Ring(w, wsize, wnext, s, w')
    requires wnext' == if wnext + |s| < wsize then wnext + |s| else wnext + |s| - wsize
    ensures WindowOk(w', wsize, wnext', if whave + |s| < wsize then whave + |s| else wsize, past + s)
  {
    var h := past + s;
    var whave' := if whave + |s| < wsize then whave + |s| else wsize;
    forall d | 1 <= d <= whave' ensures w'[Slot(wsize, wnext', d)] == h[|h| - d] {
      var i := Slot(wsize, wnext', d);
      if d > |s| {
        assert i == Slot(wsize, wnext, d - |s|);
        assert w'[i] == w[i];
        assert h[|h| - d] == past[|past| - (d - |s|)];
      } else {
        assert h[|h| - d] == s[|s| - d];
      }
    }
  }

  /** A memory block copied into another. */
  method CopyBlock(dst: array<bv8>, at: nat, src: array<bv8>, from: nat, n: nat)
    requires dst != src && at + n <= dst.Length && from + n <= src.Length
    modifies dst
    ensures forall i :: 0 <= i < dst.Length ==> dst[i] == if at <= i < at + n then src[from + i - at] else old(dst[i])
  {
    for k := 0 to n
      invariant forall i :: 0 <= i < dst.Length ==> dst[i] == if at <= i < at + k then src[from + i - at] else old(dst[i])
    {
      dst[at + k] := src[from + k];
    }
  }

  /** The decoder's output side. `past` is what earlier calls have delivered; the rest of the output is in `out`. */
  class Inflater {
    const size: nat
    const window: array<bv8>
    var wsize: nat
    var whave: nat
    var wnext: nat
    var out: array<bv8>
    var beg: nat
    var put: nat
    var end: nat
    var past: seq<bv8>

    ghost predicate Valid()
      reads this, window, out
    {
      && window != out && window.Length == size > 0 && (wsize == 0 || wsize == size)
      && beg <= put <= end <= out.Length
      && WindowOk(window[..], wsize, wnext, whave, past)
    }

    /** Everything output so far: by earlier calls, and by this one. */
    ghost function History(): seq<bv8>
      reads this, out
      requires beg <= put <= out.Length
    {
      past + out[beg..put]
    }

    constructor (wbits: nat, buffer: array<bv8>)
      ensures Valid() && size == Pow2(wbits) && past == [] && out == buffer && beg == 0 && put == 0 && end == buffer.Length && fresh(window)
    {
      size := Pow2(wbits);
      window := new bv8[Pow2(wbits)](_ => 0);
      wsize, whave, wnext, past := 0, 0, 0, [];
      out, beg, put, end := buffer, 0, 0, buffer.Length;
    }

    /** The output of the call joins the past; at most the window's size of it is kept. */
    method UpdateWindow()
      requires Valid()
      modifies this`wsize, this`whave, this`wnext, this`beg, this`past, window
      ensures Valid() && History() == old(History()) && beg == put && past == old(History()) && wsize == size
    {
      hide WindowOk;
      if wsize == 0 {
        wsize, wnext, whave := size, 0, 0;
        WindowStart(window[..], wsize, old(wnext), old(whave), past);
      }
      var copy := put - beg;
      var s := out[beg..put];
      if copy >= wsize {
        Replace();
      } else {
        Append(copy);
      }
      past := past + s;
      beg := put;
    }

    /** A window's worth of output or more: its end replaces the whole window. */
    method Replace()
      requires window != out && beg <= put <= out.Length && put - beg >= wsize == window.Length > 0
      modifies this`whave, this`wnext, window
      ensures WindowOk(window[..], wsize, wnext, whave, past + out[beg..put])
    {
      hide WindowOk;
      CopyBlock(window, 0, out, put - wsize, wsize);
      wnext, whave := 0, wsize;
      WindowFull(window[..], past, out[beg..put]);
    }

    /** Less than a window's worth of output, in one piece or two. */
    method Append(copy: nat)
      requires window != out && beg <= put <= out.Length && copy == put - beg < wsize == window.Length
      requires WindowOk(window[..], wsize, wnext, whave, past)
      modifies this`whave, this`wnext, window
      ensures WindowOk(window[..], wsize, wnext, whave, past + out[beg..put])
    {
      hide WindowOk, Ring;
      ghost var w, next, have, s := window[..], wnext, whave, out[beg..put];
      WindowFacts(w, wsize, wnext, whave, past);
      var dist := wsize - wnext;
      if dist > copy { dist := copy; }
      Write(copy, dist);
      if copy - dist > 0 {
        wnext := copy - dist;
        whave := wsize;
      } else {
        wnext := wnext + dist;
        if wnext == wsize { wnext := 0; }
        if whave < wsize { whave := whave + dist; }
      }
      WindowAppend(w, wsize, next, have, past, s, window[..], wnext);
    }

    method Write(copy: nat, dist: nat)
      requires window != out && beg <= put <= out.Length && copy == put - beg < wsize == window.Length && wnext < wsize
      requires dist == if wsize - wnext > copy then copy else wsize - wnext
      modifies window
      ensures Ring(old(window[..]), wsize, wnext, out[beg..put], window[..])
    {
      CopyBlock(window, wnext, out, put - copy, dist);
      if copy - dist > 0 { CopyBlock(window, 0, out, put - (copy - dist), copy - dist); }
    }

    method PutByte(b: bv8)
      requires Valid() && put < end
      modifies this`put, out
      ensures Valid() && put == old(put) + 1 && History() == old(History()) + [b]
    {
      out[put] := b;
      put := put + 1;
    }

    /** Copies match bytes that lie in the window, without running past its end. */
    method CopyWindow(from: nat, n: nat, ghost dist: nat)
      requires Valid() && put + n <= end && put - beg < dist && dist - (put - beg) <= whave
      requires from == Slot(wsize, wnext, dist - (put - beg)) && n <= Stretch(wnext, dist - (put - beg))
      modifies this`put, out
      ensures Valid() && dist <= |old(History())| && History() == Extend(old(History()), dist, n) && put == old(put) + n
    {
      hide WindowOk;
      ghost var h, d := History(), dist - (put - beg);
      WindowByte(window[..], wsize, wnext, whave, past, d);
      for k := 0 to n
        invariant Valid() && put == old(put) + k && History() == Extend(h, dist, k)
        invariant window[..] == old(window[..])
      {
        WindowByte(window[..], wsize, wnext, whave, past, d - k);
        assert Slot(wsize, wnext, d - k) == from + k;
        assert History()[|History()| - dist] == past[|past| - (d - k)];
        ExtendNext(h, dist, k);
        PutByte(window[from + k]);
      }
    }

    /** Copies match bytes that lie in the output, which may be ones that the copying itself writes. */
    method CopyOutput(n: nat, dist: nat)
      requires Valid() && put + n <= end && 0 < dist <= put - beg
      modifies this`put, out
      ensures Valid() && History() == Extend(old(History()), dist, n) && put == old(put) + n
    {
      hide WindowOk;
      ghost var h := History();
      for k := 0 to n
        invariant Valid() && put == old(put) + k && History() == Extend(h, dist, k)
      {
        assert History()[|History()| - dist] == out[put - dist];
        ExtendNext(h, dist, k);
        PutByte(out[put - dist]);
      }
    }

    /**
     One pass of the step that copies a match: as much of it as lies in one piece and fits the output. It refuses
     exactly the distances that reach back past the window.
     */
    method MatchStep(dist: nat, length: nat) returns (copied: nat, bad: bool)
      requires Valid() && put < end && dist > 0 && length > 0
      modifies this`put, out
      ensures Valid() && (bad <==> dist > put - beg + whave - copied)
      ensures bad ==> copied == 0 && History() == old(History())
      ensures !bad ==> dist <= |old(History())| && 0 < copied <= length
      ensures !bad ==> History() == Extend(old(History()), dist, copied) && put == old(put) + copied
    {
      hide WindowOk;
      bad, copied := false, put - beg;
      var from;
      if dist > copied {
        copied := dist - copied;
        if copied > whave { return 0, true; }
        WindowByte(window[..], wsize, wnext, whave, past, copied);
        if copied > wnext {
          copied := copied - wnext;
          from := wsize - copied;
        } else {
          from := wnext - copied;
        }
        if copied > length { copied := length; }
        if copied > end - put { copied := end - put; }
        CopyWindow(from, copied, dist);
      } else {
        copied := length;
        if copied > end - put { copied := end - put; }
        CopyOutput(copied, dist);
      }
    }

    /** The fast decoder's copy of a whole match, which has the room it may need. */
    method FastMatch(dist: nat, length: nat) returns (bad: bool)
      requires Valid() && put + length <= end && dist > 0 && length >= 3
      modifies this`put, out
      ensures Valid() && (bad <==> dist > old(put) - beg + whave)
      ensures bad ==> History() == old(History()) && put == old(put)
      ensures !bad ==> dist <= |old(History())| && History() == Extend(old(History()), dist, length) && put == old(put) + length
    {
      hide WindowOk;
      bad := false;
      var op := put - beg;
      var len := length;
      if dist <= op {
        CopyOutput(len, dist);
        return;
      }
      op := dist - op;
      if op > whave { return true; }
      WindowByte(window[..], wsize, wnext, whave, past, op);
      if wnext == 0 {
        WindowThenOutput(wsize - op, op, dist, length);
      } else if wnext < op {
        WindowTwice(op, dist, length);
      } else {
        WindowThenOutput(wnext - op, op, dist, length);
      }
    }

    /** All `op` bytes of the window from `from` on, if that many are wanted, and the rest from the output. */
    method WindowThenOutput(from: nat, op: nat, dist: nat, length: nat)
      requires Valid() && put + length <= end && put - beg < dist && op == dist - (put - beg) <= whave
      requires from == Slot(wsize, wnext, op) && op == Stretch(wnext, op)
      modifies this`put, out
      ensures Valid() && dist <= |old(History())| && History() == Extend(old(History()), dist, length) && put == old(put) + length
    {
      hide WindowOk;
      if op < length {
        CopyWindow(from, op, dist);
        ExtendTwice(old(History()), dist, op, length - op);
        CopyOutput(length - op, dist);
      } else {
        CopyWindow(from, length, dist);
      }
    }

    /** A match that begins in the window's end, goes on at its start and may then reach into the output. */
    method WindowTwice(op: nat, dist: nat, length: nat)
      requires Valid() && put + length <= end && put - beg < dist && op == dist - (put - beg) <= whave && 0 < wnext < op
      modifies this`put, out
      ensures Valid() && dist <= |old(History())| && History() == Extend(old(History()), dist, length) && put == old(put) + length
    {
      hide WindowOk;
      WindowByte(window[..], wsize, wnext, whave, past, op);
      if op - wnext < length {
        CopyWindow(wsize + wnext - op, op - wnext, dist);
        ExtendTwice(old(History()), dist, op - wnext, length - (op - wnext));
        WindowThenOutput(0, wnext, dist, length - (op - wnext));
      } else {
        CopyWindow(wsize + wnext - op, length, dist);
      }
    }

    /** The call ends, its output goes into the window, and another call brings room for n bytes. */
    method NextCall(n: nat)
      requires Valid() && n > 0
      modifies this, window
      ensures Valid() && History() == old(History()) && fresh(out) && put < end
    {
      hide WindowOk;
      WindowNone(window[..], wsize, wnext, whave, past);
      if wsize != 0 || put > beg { UpdateWindow(); }
      out := new bv8[n](_ => 0);
      beg, put, end := 0, 0, n;
      assert past + [] == past;
    }

    /**
     A pass of the match step, in a new call if this one has no room left. A distance within the window's size is
     refused exactly if it reaches back before the first byte.
     */
    method Pass(dist: nat, length: nat) returns (copied: nat)
      requires Valid() && dist > 0 && length > 0
      modifies this, window, out
      ensures Valid() && (out == old(out) || fresh(out)) && copied <= length
      ensures dist > |old(History())| ==> copied == 0
      ensures dist <= size && dist <= |old(History())| ==> copied > 0
      ensures if copied == 0 then History() == old(History())
              else dist <= |old(History())| && History() == Extend(old(History()), dist, copied)
    {
      hide WindowOk, Extend;
      if put == end {
        var n: nat :| n > 0;
        NextCall(n);
      }
      Reach(window[..], wsize, wnext, whave, past, put - beg, dist, size);
      var bad;
      copied, bad := MatchStep(dist, length);
    }

    /** A match is copied over as many calls as it takes, to its end unless it reaches back too far. */
    method SlowMatch(dist: nat, length: nat) returns (done: nat)
      requires Valid() && dist > 0 && length > 0
      modifies this, window, out
      ensures Valid() && (out == old(out) || fresh(out)) && done <= length
      ensures dist > |old(History())| ==> done == 0
      ensures dist <= size && dist <= |old(History())| ==> done == length
      ensures if done == 0 then History() == old(History())
              else dist <= |old(History())| && History() == Extend(old(History()), dist, done)
    {
      hide WindowOk, Extend;
      ghost var h := History();
      done := Pass(dist, length);
      var copied := done;
      while done < length && copied > 0
        invariant 0 <= done <= length && Valid() && (out == old(out) || fresh(out))
        invariant done > 0 ==> dist <= |h| && History() == Extend(h, dist, done)
        invariant done == 0 ==> History() == h
        invariant dist > |h| ==> done == 0
        invariant dist <= size && dist <= |h| ==> copied > 0
        decreases length - done, copied
      {
        ExtendLonger(h, dist, done);
        copied := Pass(dist, length - done);
        ExtendTwice(h, dist, done, copied);
        done := done + copied;
      }
    }

    method DoMatch(dist: nat, length: nat) returns (done: nat)
      requires Valid() && dist > 0 && length >= 3
      modifies this, window, out
      ensures Valid() && (out == old(out) || fresh(out)) && done <= length
      ensures dist > |old(History())| ==> done == 0
      ensures dist <= size && dist <= |old(History())| ==> done == length
      ensures if done == 0 then History() == old(History())
              else dist <= |old(History())| && History() == Extend(old(History()), dist, done)
    {
      hide WindowOk, Extend;
      var fast := *;
      if fast && end - put >= 258 >= length {
        Reach(window[..], wsize, wnext, whave, past, put - beg, dist, size);
        var bad := FastMatch(dist, length);
        done := if bad then 0 else length;
      } else {
        done := SlowMatch(dist, length);
      }
    }

    /** A literal, in a new call if this one has no room left. */
    method DoLiteral(b: bv8)
      requires Valid()
      modifies this, window, out
      ensures Valid() && (out == old(out) || fresh(out)) && History() == old(History()) + [b]
    {
      hide WindowOk;
      if put == end {
        var n: nat :| n > 0;
        NextCall(n);
      }
      PutByte(b);
    }

    /** The bytes of a stored block, in as many pieces as input and output space make of it. */
    method DoStored(bytes: seq<bv8>)
      requires Valid()
      modifies this, window, out
      ensures Valid() && (out == old(out) || fresh(out)) && History() == old(History()) + bytes
    {
      hide WindowOk;
      for i := 0 to |bytes|
        invariant Valid() && (out == old(out) || fresh(out)) && History() == old(History()) + bytes[..i]
      {
        DoLiteral(bytes[i]);
        assert bytes[..i + 1] == bytes[..i] + [bytes[i]];
      }
      assert bytes[..|bytes|] == bytes;
    }
  }

  lemma WindowByte(w: seq<bv8>, wsize: nat, wnext: nat, whave: nat, past: seq<bv8>, d: nat)
    requires WindowOk(w, wsize, wnext, whave, past) && 1 <= d <= whave
    ensures whave <= |past| && 0 <= Slot(wsize, wnext, d) < |w| && w[Slot(wsize, wnext, d)] == past[|past| - d]
  {
  }

  lemma WindowNone(w: seq<bv8>, wsize: nat, wnext: nat, whave: nat, past: seq<bv8>)
    requires WindowOk(w, wsize, wnext, whave, past)
    ensures wsize == 0 ==> past == [] && WindowOk(w, wsize, wnext, whave, past + [])
  {
  }

  /** A distance within the window's size is refused exactly if it reaches back before the first byte. */
  lemma Reach(w: seq<bv8>, wsize: nat, wnext: nat, whave: nat, past: seq<bv8>, produced: nat, dist: nat, size: nat)
    requires WindowOk(w, wsize, wnext, whave, past) && (wsize == 0 || wsize == size)
    ensures dist > |past| + produced ==> dist > produced + whave
    ensures dist <= size ==> (dist > produced + whave <==> dist > |past| + produced)
  {
  }

  /** How far the bytes from `d` back on run before the window's end or its newest byte. */
  function Stretch(next: nat, d: nat): nat {
    if d > next then d - next else d
  }

  /** The bytes `s` written into a ring at `next`. */
  ghost predicate Ring(w: seq<bv8>, wsize: nat, next: nat, s: seq<bv8>, w': seq<bv8>)
    requires |w| == wsize && next < wsize && |s| < wsize
  {
    && |w'| == wsize
    && (forall i :: next <= i < wsize && i < next + |s| ==> w'[i] == s[i - next])
    && (forall i :: 0 <= i < next + |s| - wsize ==> w'[i] == s[i + wsize - next])
    && (forall i :: 0 <= i < wsize && next + |s| - wsize <= i && (i < next || i >= next + |s|) ==> w'[i] == w[i])
  }

  lemma WindowStart(w: seq<bv8>, size: nat, wnext: nat, whave: nat, past: seq<bv8>)
    requires WindowOk(w, 0, wnext, whave, past) && |w| == size > 0
    ensures WindowOk(w, size, 0, 0, past)
  {
  }

  lemma WindowFacts(w: seq<bv8>, wsize: nat, wnext: nat, whave: nat, past: seq<bv8>)
    requires WindowOk(w, wsize, wnext, whave, past) && wsize > 0
    ensures wnext < wsize && whave <= wsize && (whave < wsize ==> wnext == whave)
  {
  }

  lemma WindowFull(w: seq<bv8>, past: seq<bv8>, s: seq<bv8>)
    requires 0 < |w| <= |s| && w == s[|s| - |w|..]
    ensures WindowOk(w, |w|, 0, |w|, past + s)
  {
    var h := past + s;
    forall d | 1 <= d <= |w| ensures w[Slot(|w|, 0, d)] == h[|h| - d] {
      assert h[|h| - d] == s[|s| - d];
    }
  }

  datatype Token = Literal(b: bv8) | Match(dist: nat, length: nat) | Stored(bytes: seq<bv8>)

  /** What a token makes of the output so far, by section 3.2.3 of RFC 1951; a distance beyond the first byte means nothing. */
  ghost function Meant(h: seq<bv8>, token: Token): Option<seq<bv8>> {
    match token
    case Literal(b) => Some(h + [b])
    case Stored(bytes) => Some(h + bytes)
    case Match(dist, length) => if 0 < dist <= |h| then Some(Extend(h, dist, length)) else None
  }

  /** What tokens mean, one after the other. */
  ghost function Decoded(tokens: seq<Token>): Option<seq<bv8>> {
    if tokens == [] then Some([])
    else
      match Decoded(tokens[..|tokens| - 1])
      case None => None
      case Some(h) => Meant(h, tokens[|tokens| - 1])
  }

  ghost predicate InFormat(t: Token) {
    t.Match? ==> t.dist > 0 && t.length >= 3
  }

  /**
   However the output is cut into calls, and whichever decoder copies a match, the whole output is what the tokens
   mean. Decoding stops only at a match. One whose distance is within the window's size stops it exactly if it
   reaches back before the first byte; a longer distance may be refused at any call boundary, `part` bytes into its
   copying.
   */
  method Inflate(wbits: nat, tokens: seq<Token>) returns (output: seq<bv8>, used: nat, part: nat)
    requires forall i :: 0 <= i < |tokens| ==> InFormat(tokens[i])
    ensures used <= |tokens| && (part > 0 ==> used < |tokens|)
    ensures used < |tokens| ==> tokens[used].Match? && part < tokens[used].length
    ensures Decoded(tokens[..used] + if part > 0 then [Match(tokens[used].dist, part)] else []) == Some(output)
    ensures used < |tokens| && tokens[used].dist <= Pow2(wbits) ==> part == 0 && Decoded(tokens[..used + 1]) == None
  {
    hide WindowOk, Extend;
    var buffer := new bv8[0];
    var z := new Inflater(wbits, buffer);
    used, part := 0, 0;
    assert z.History() == [];
    while used < |tokens|
      invariant 0 <= used <= |tokens| && z.Valid() && fresh(z.window) && fresh(z.out) && z.size == Pow2(wbits)
      invariant part == 0 && Decoded(tokens[..used]) == Some(z.History())
      decreases |tokens| - used
    {
      var pause := *;
      if pause {
        var n: nat :| n > 0;
        z.NextCall(n);
      }
      assert tokens[..used + 1][..used] == tokens[..used];
      match tokens[used] {
        case Literal(b) => z.DoLiteral(b);
        case Stored(bytes) => z.DoStored(bytes);
        case Match(dist, length) =>
          assert InFormat(tokens[used]);
          DecodedPart(tokens[..used], dist, length);
          var done := z.DoMatch(dist, length);
          if done < length {
            if done > 0 { DecodedPart(tokens[..used], dist, done); }
            part := done;
            break;
          }
      }
      used := used + 1;
    }
    assert tokens[..used] + [] == tokens[..used];
    output := z.past + z.out[z.beg..z.put];
  }

  lemma DecodedPart(tokens: seq<Token>, dist: nat, n: nat)
    ensures Decoded(tokens).Some? ==>
              var h := Decoded(tokens).value;
              Decoded(tokens + [Match(dist, n)]) == if 0 < dist <= |h| then Some(Extend(h, dist, n)) else None
  {
    hide Extend;
    var all := tokens + [Match(dist, n)];
    assert all[..|all| - 1] == tokens;
  }
}
