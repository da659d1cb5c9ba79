/**
 The test tone of apps/apptester/app_audtest.cpp: each call fills a buffer from a wave table of 16-bit
 samples and remembers, as a byte index, where the next call goes on.
*/
module Tone {
  import opened Common
  import opened Modular

  type Byte = b: int | 0 <= b < 256

  predicate Wave(w: seq<Byte>) { w != [] && |w| % 2 == 0 }

  /** n bytes of the endlessly repeated table, from byte idx on. */
  function Repeat(w: seq<Byte>, idx: nat, n: nat): (r: seq<Byte>)
    requires w != [] && idx <= |w|
    ensures |r| == n
    decreases n, idx
  {
    if n == 0 then []
    else if idx == |w| then Repeat(w, 0, n)
    else [w[idx]] + Repeat(w, idx + 1, n - 1)
  }

  lemma {:induction false} RepeatPrefix(w: seq<Byte>, idx: nat, a: nat, m: nat)
    requires w != [] && idx + a <= |w|
    ensures Repeat(w, idx, a + m) == w[idx..idx + a] + Repeat(w, idx + a, m)
    decreases a
  {
    if a > 0 {
      RepeatPrefix(w, idx + 1, a - 1, m);
      assert w[idx..idx + a] == [w[idx]] + w[idx + 1..idx + 1 + (a - 1)];
    }
  }

  lemma RepeatWrap(w: seq<Byte>, m: nat)
    requires w != []
    ensures Repeat(w, |w|, m) == Repeat(w, 0, m)
  {
  }

  lemma RepeatTurn(w: seq<Byte>, m: nat)
    requires w != []
    ensures Repeat(w, 0, |w| + m) == w + Repeat(w, 0, m)
  {
    RepeatPrefix(w, 0, |w|, m);
    RepeatWrap(w, m);
    assert w[0..0 + |w|] == w;
  }

  /** In closed form. */
  lemma {:induction false} RepeatAt(w: seq<Byte>, n: nat, i: nat)
    requires w != [] && i < n
    ensures Repeat(w, 0, n)[i] == w[i % |w|]
    decreases i
  {
    var size := |w|;
    if i < size {
      ModUnique(i, size, 0, i);
      RepeatPrefix(w, 0, i, n - i);
    } else {
      RepeatTurn(w, n - size);
      RepeatAt(w, n - size, i - size);
      var q, r := (i - size) / size, (i - size) % size;
      assert (q + 1) * size == q * size + size;
      ModUnique(i, size, q + 1, r);
    }
  }

  /** The first a bytes from the sample idx lies in. */
  function Rest(w: seq<Byte>, idx: nat, a: nat): (r: seq<Byte>)
    requires idx + a <= |w|
    ensures |r| == a && (idx % 2 == 0 ==> r == w[idx..idx + a])
  {
    w[idx / 2 * 2..idx / 2 * 2 + a]
  }

  /** The bytes one call delivers: up to the end of the table from the sample idx lies in, then round and round. */
  function Out(w: seq<Byte>, idx: nat, len: nat): (r: seq<Byte>)
    requires Wave(w) && idx <= |w|
    ensures |r| == len
  {
    var a := Min(len, |w| - idx);
    Rest(w, idx, a) + Repeat(w, 0, len - a)
  }

  /** What is left in the last turn: at most a whole table. */
  function LastTurn(n: nat, size: nat): (r: nat)
    requires 0 < size
    ensures r <= size && (size % 2 == 0 ==> r % 2 == n % 2)
    decreases n
  {
    if n > size then LastTurn(n - size, size) else n
  }

  lemma SameParity(x: int, size: int)
    requires size % 2 == 0
    ensures (x - size) % 2 == x % 2
  {
  }

  /** Where the next call goes on. */
  function NextIdx(idx: nat, len: nat, size: nat): (r: nat)
    requires 0 < size && idx <= size
    ensures r <= size && (size % 2 == 0 ==> r % 2 == (idx + len) % 2)
  {
    assert size % 2 == 0 ==> (idx + len - size) % 2 == (idx + len) % 2 by {
      if size % 2 == 0 {
        SameParity(idx + len, size);
      }
    }
    if len > size then LastTurn(if idx != 0 then len - (size - idx) else len, size)
    else if size - idx >= len then idx + len
    else len - (size - idx)
  }

  lemma {:induction false} TurnsSplit(w: seq<Byte>, n: nat, m: nat)
    requires w != []
    ensures Repeat(w, 0, n + m) == Repeat(w, 0, n) + Repeat(w, LastTurn(n, |w|), m)
    decreases n
  {
    if n > |w| {
      RepeatTurn(w, n - |w| + m);
      RepeatTurn(w, n - |w|);
      TurnsSplit(w, n - |w|, m);
    } else {
      RepeatPrefix(w, 0, n, m);
      RepeatPrefix(w, 0, n, 0);
    }
  }

  /** From a whole number of samples on, a call and the calls after it deliver the table without a break. */
  lemma OutContinues(w: seq<Byte>, idx: nat, len: nat, m: nat)
    requires Wave(w) && idx <= |w| && idx % 2 == 0
    ensures Out(w, idx, len) + Repeat(w, NextIdx(idx, len, |w|), m) == Repeat(w, idx, len + m)
  {
    var a := Min(len, |w| - idx);
    RepeatPrefix(w, idx, a, len - a + m);
    if a < len {
      RepeatWrap(w, len - a + m);
      TurnsSplit(w, len - a, m);
      SameTurn(idx, len, |w|);
      Associates(Rest(w, idx, a), Repeat(w, 0, len - a), Repeat(w, NextIdx(idx, len, |w|), m));
    } else {
      assert Out(w, idx, len) == Rest(w, idx, a);
    }
  }

  lemma SameTurn(idx: nat, len: nat, size: nat)
    requires 0 < size && idx <= size && len > size - idx
    ensures NextIdx(idx, len, size) == LastTurn(len - (size - idx), size)
  {
  }

  /** For any table: a call is right exactly if its first stretch, which starts at a whole sample, is. */
  lemma OutExactly(w: seq<Byte>, idx: nat, len: nat)
    requires Wave(w) && idx <= |w|
    ensures var a := Min(len, |w| - idx);
            Out(w, idx, len) == Repeat(w, idx, len) <==> Rest(w, idx, a) == w[idx..idx + a]
  {
    var a := Min(len, |w| - idx);
    RepeatStarts(w, idx, len, a);
    SameTail(Rest(w, idx, a), w[idx..idx + a], Repeat(w, 0, len - a));
  }

  lemma RepeatStarts(w: seq<Byte>, idx: nat, len: nat, a: nat)
    requires w != [] && idx <= |w| && a == Min(len, |w| - idx)
    ensures Repeat(w, idx, len) == w[idx..idx + a] + Repeat(w, 0, len - a)
  {
    RepeatPrefix(w, idx, a, len - a);
    if a < len {
      RepeatWrap(w, len - a);
    }
  }

  lemma SameTail(a: seq<Byte>, b: seq<Byte>, tail: seq<Byte>)
    requires |a| == |b|
    ensures a + tail == b + tail <==> a == b
  {
    assert (a + tail)[..|a|] == a && (b + tail)[..|a|] == b;
  }

  /** The table that tells byte idx from the one before it. */
  function Spike(n: nat, idx: nat): (w: seq<Byte>)
    ensures |w| == n && forall i | 0 <= i < n :: w[i] == if i == idx then 1 else 0
  {
    seq(n, i => if i == idx then 1 else 0)
  }

  /** In the middle of a sample a call that delivers anything starts with the wrong byte, for some table. */
  lemma SpikeTells(n: nat, idx: nat, len: nat)
    requires n > 0 && n % 2 == 0 && idx <= n && idx % 2 != 0 && len > 0
    ensures Wave(Spike(n, idx)) && Out(Spike(n, idx), idx, len)[0] != Repeat(Spike(n, idx), idx, len)[0]
  {
    var w := Spike(n, idx);
    assert idx / 2 * 2 == idx - 1;
    assert Out(w, idx, len)[0] == w[idx - 1] && Repeat(w, idx, len)[0] == w[idx];
  }

  /** The output of a series of calls. */
  function Play(w: seq<Byte>, idx: nat, lens: seq<nat>): seq<Byte>
    requires Wave(w) && idx <= |w|
    decreases |lens|
  {
    if lens == [] then [] else Out(w, idx, lens[0]) + Play(w, NextIdx(idx, lens[0], |w|), lens[1..])
  }

  function Total(lens: seq<nat>): nat {
    if lens == [] then 0 else lens[0] + Total(lens[1..])
  }

  /** Any series of even requests: the calls together deliver an unbroken stretch of the repeated wave table. */
  lemma {:induction false} PhaseContinuous(w: seq<Byte>, idx: nat, lens: seq<nat>)
    requires Wave(w) && idx <= |w| && idx % 2 == 0 && forall i | 0 <= i < |lens| :: lens[i] % 2 == 0
    ensures Play(w, idx, lens) == Repeat(w, idx, Total(lens))
    decreases |lens|
  {
    if lens != [] {
      OutContinues(w, idx, lens[0], Total(lens[1..]));
      PhaseContinuous(w, NextIdx(idx, lens[0], |w|), lens[1..]);
    }
  }

  /** Every call that delivers anything starts at a whole sample. */
  predicate Aligned(n: nat, idx: nat, lens: seq<nat>)
    requires n > 0 && idx <= n
    decreases |lens|
  {
    lens == [] || ((idx % 2 == 0 || lens[0] == 0) && Aligned(n, NextIdx(idx, lens[0], n), lens[1..]))
  }

  ghost predicate AllContinuous(n: nat, idx: nat, lens: seq<nat>)
    requires n > 0 && n % 2 == 0 && idx <= n
  {
    forall w: seq<Byte> | |w| == n && Wave(w) :: Play(w, idx, lens) == Repeat(w, idx, Total(lens))
  }

  lemma PlayFirst(w: seq<Byte>, idx: nat, lens: seq<nat>, len: nat, rest: seq<nat>, next: nat)
    requires Wave(w) && idx <= |w| && lens == [len] + rest && next == NextIdx(idx, len, |w|)
    ensures Play(w, idx, lens) == Out(w, idx, len) + Play(w, next, rest) && Total(lens) == len + Total(rest)
  {
    assert lens[0] == len && lens[1..] == rest;
  }

  lemma RepeatFirst(w: seq<Byte>, idx: nat, len: nat, m: nat, total: nat, next: nat)
    requires Wave(w) && idx <= |w| && (idx % 2 == 0 || len == 0) && next == NextIdx(idx, len, |w|)
    requires total == len + m
    ensures Repeat(w, idx, total) == Out(w, idx, len) + Repeat(w, next, m)
  {
    if idx % 2 == 0 {
      OutContinues(w, idx, len, m);
    } else {
      assert Out(w, idx, 0) == [] && next == idx;
    }
  }

  /** Behind a call that starts at a whole sample, or delivers nothing, it is up to the others. */
  lemma FirstIsRight(w: seq<Byte>, idx: nat, lens: seq<nat>, len: nat, rest: seq<nat>, next: nat)
    requires Wave(w) && idx <= |w| && lens == [len] + rest && next == NextIdx(idx, len, |w|)
    requires idx % 2 == 0 || len == 0
    ensures Play(w, idx, lens) == Repeat(w, idx, Total(lens)) <==>
            Play(w, next, rest) == Repeat(w, next, Total(rest))
  {
    PlayFirst(w, idx, lens, len, rest, next);
    RepeatFirst(w, idx, len, Total(rest), Total(lens), next);
    SameHead(Out(w, idx, len), Play(w, next, rest), Repeat(w, next, Total(rest)),
             Play(w, idx, lens), Repeat(w, idx, Total(lens)));
  }

  lemma SameHead(head: seq<Byte>, a: seq<Byte>, b: seq<Byte>, x: seq<Byte>, y: seq<Byte>)
    requires x == head + a && y == head + b
    ensures x == y <==> a == b
  {
    assert x[|head|..] == a && y[|head|..] == b;
  }

  lemma FirstIsWrong(n: nat, idx: nat, lens: seq<nat>)
    requires n > 0 && n % 2 == 0 && idx <= n && lens != [] && idx % 2 != 0 && lens[0] > 0
    ensures !AllContinuous(n, idx, lens)
  {
    var w := Spike(n, idx);
    SpikeTells(n, idx, lens[0]);
    assert Play(w, idx, lens)[0] == Out(w, idx, lens[0])[0];
    assert Repeat(w, idx, Total(lens))[0] == w[idx] == Repeat(w, idx, lens[0])[0];
  }

  /**
   Any series of calls, of any lengths, on tables of any even size: what they deliver together is an unbroken stretch
   of the repeated table, for all tables of that size, exactly if every call that delivers anything starts at a
   whole sample.
  */
  lemma {:induction false} SeriesExactly(n: nat, idx: nat, lens: seq<nat>)
    requires n > 0 && n % 2 == 0 && idx <= n
    ensures AllContinuous(n, idx, lens) <==> Aligned(n, idx, lens)
    decreases |lens|
  {
    if lens != [] {
      if idx % 2 == 0 || lens[0] == 0 {
        forall w: seq<Byte> | |w| == n && Wave(w)
          ensures Play(w, idx, lens) == Repeat(w, idx, Total(lens)) <==>
            Play(w, NextIdx(idx, lens[0], n), lens[1..]) == Repeat(w, NextIdx(idx, lens[0], n), Total(lens[1..]))
        {
          assert lens == [lens[0]] + lens[1..];
          FirstIsRight(w, idx, lens, lens[0], lens[1..], NextIdx(idx, lens[0], n));
        }
        SeriesExactly(n, NextIdx(idx, lens[0], n), lens[1..]);
      } else {
        FirstIsWrong(n, idx, lens);
      }
    }
  }

  /** One call: right for all tables of a size exactly at a whole sample, or if nothing is asked for. */
  lemma CallExactly(n: nat, idx: nat, len: nat)
    requires n > 0 && n % 2 == 0 && idx <= n
    ensures (forall w: seq<Byte> | |w| == n && Wave(w) :: Out(w, idx, len) == Repeat(w, idx, len)) <==>
            idx % 2 == 0 || len == 0
  {
    if idx % 2 != 0 && len > 0 {
      SpikeTells(n, idx, len);
    } else {
      forall w: seq<Byte> | |w| == n && Wave(w) ensures Out(w, idx, len) == Repeat(w, idx, len) {
        OutExactly(w, idx, len);
      }
    }
  }

  lemma TurnDelivered(w: seq<Byte>, done: seq<Byte>, n: nat)
    requires w != [] && n > |w|
    ensures (done + w) + Repeat(w, 0, n - |w|) == done + Repeat(w, 0, n)
  {
    RepeatTurn(w, n - |w|);
  }

  /** From the start of the table a call simply repeats it. */
  lemma OutFromStart(w: seq<Byte>, len: nat)
    requires Wave(w) && |w| < len
    ensures Out(w, 0, len) == Repeat(w, 0, len)
  {
    RepeatTurn(w, len - |w|);
    assert w[0..0 + |w|] == w;
  }

  class Generator {
    const sinwave: seq<Byte>
    var nextPbufIdx: nat

    ghost predicate Valid()
      reads this
    {
      Wave(sinwave) && nextPbufIdx <= |sinwave|
    }

    constructor (w: seq<Byte>)
      requires Wave(w)
      ensures Valid() && sinwave == w && nextPbufIdx == 0
    {
      sinwave, nextPbufIdx := w, 0;
    }

    static method Memcpy(buf: array<Byte>, at: nat, src: seq<Byte>)
      requires at + |src| <= buf.Length
      modifies buf
      ensures buf[at..at + |src|] == src && buf[..at] == old(buf[..at])
    {
      var i := 0;
      while i < |src|
        invariant 0 <= i <= |src| && buf[at..at + i] == src[..i] && buf[..at] == old(buf[..at])
      {
        buf[at + i] := src[i];
        i := i + 1;
      }
    }

    /** The loop for requests longer than the table, once the rest of the table has been delivered. */
    method WholeTurns(buf: array<Byte>, at: nat, remain: nat)
      requires Valid() && at + remain <= buf.Length && remain > 0
      modifies buf, this`nextPbufIdx
      ensures Valid() && nextPbufIdx == LastTurn(remain, |sinwave|)
      ensures buf[..at + remain] == old(buf[..at]) + Repeat(sinwave, 0, remain)
    {
      var currSize, remainSize := at, remain;
      ghost var goal := buf[..at] + Repeat(sinwave, 0, remain);
      while remainSize > |sinwave|
        invariant Valid() && 0 < remainSize && currSize + remainSize == at + remain
        invariant LastTurn(remainSize, |sinwave|) == LastTurn(remain, |sinwave|)
        invariant buf[..currSize] + Repeat(sinwave, 0, remainSize) == goal
      {
        TurnDelivered(sinwave, buf[..currSize], remainSize);
        Append(buf, currSize, sinwave);
        currSize, remainSize := currSize + |sinwave|, remainSize - |sinwave|;
      }
      RepeatPrefix(sinwave, 0, remainSize, 0);
      Append(buf, currSize, sinwave[..remainSize]);
      nextPbufIdx := remainSize;
    }

    static method Append(buf: array<Byte>, at: nat, src: seq<Byte>)
      requires at + |src| <= buf.Length
      modifies buf
      ensures buf[..at + |src|] == old(buf[..at]) + src
    {
      Memcpy(buf, at, src);
      assert buf[..at + |src|] == buf[..at] + buf[at..at + |src|];
    }

    method LongRequest(buf: array<Byte>, len: nat)
      requires Valid() && |sinwave| < len <= buf.Length
      modifies buf, this`nextPbufIdx
      ensures Valid() && buf[..len] == Out(sinwave, old(nextPbufIdx), len)
      ensures nextPbufIdx == NextIdx(old(nextPbufIdx), len, |sinwave|)
    {
      if nextPbufIdx != 0 {
        var e, currSize := nextPbufIdx / 2 * 2, |sinwave| - nextPbufIdx;
        Append(buf, 0, sinwave[e..e + currSize]);
        assert buf[..0 + currSize] == Rest(sinwave, nextPbufIdx, currSize);
        WholeTurns(buf, currSize, len - currSize);
        assert currSize + (len - currSize) == len;
      } else {
        WholeTurns(buf, 0, len);
        OutFromStart(sinwave, len);
        assert buf[..0 + len] == buf[..len];
      }
    }

    method ShortRequest(buf: array<Byte>, len: nat)
      requires Valid() && len <= |sinwave| && len <= buf.Length
      modifies buf, this`nextPbufIdx
      ensures Valid() && buf[..len] == Out(sinwave, old(nextPbufIdx), len)
      ensures nextPbufIdx == NextIdx(old(nextPbufIdx), len, |sinwave|)
    {
      var e := nextPbufIdx / 2 * 2;
      if |sinwave| - nextPbufIdx >= len {
        Memcpy(buf, 0, sinwave[e..e + len]);
        assert buf[..len] == Rest(sinwave, nextPbufIdx, len);
        nextPbufIdx := nextPbufIdx + len;
      } else {
        var currSize := |sinwave| - nextPbufIdx;
        Memcpy(buf, 0, sinwave[e..e + currSize]);
        assert buf[..currSize] == Rest(sinwave, nextPbufIdx, currSize);
        nextPbufIdx := len - currSize;
        Append(buf, currSize, sinwave[..nextPbufIdx]);
        RepeatPrefix(sinwave, 0, nextPbufIdx, 0);
        assert currSize + nextPbufIdx == len;
      }
    }

    /** pcm_1ksin_more_data */
    method MoreData(buf: array<Byte>, len: nat)
      requires Valid() && len <= buf.Length
      modifies buf, this`nextPbufIdx
      ensures Valid() && buf[..len] == Out(sinwave, old(nextPbufIdx), len)
      ensures nextPbufIdx == NextIdx(old(nextPbufIdx), len, |sinwave|)
    {
      if len > |sinwave| {
        LongRequest(buf, len);
      } else {
        ShortRequest(buf, len);
      }
    }
  }
}
