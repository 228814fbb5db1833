/** The rtime codec of JFFS2: each pair of bytes is a literal and the length of a run that repeats
    what followed the previous occurrence of that literal. */
module Rtime {
  import opened Common

  /** Last occurrences: where the byte after the latest `v` went, 0 before the first one. */
  type Table = t: seq<nat> | |t| == 256 witness Zeros(256)

  const START: Table := Zeros(256)

  predicate Within(t: Table, n: nat) {
    forall k :: 0 <= k < 256 ==> t[k] <= n
  }

  /** The table once the byte after the latest `v` went to `n`. */
  function Seen(t: Table, v: Byte, n: nat): (u: Table)
    requires Within(t, n)
    ensures Within(u, n)
  {
    t[v := n]
  }

  /** Appends `n` bytes read from `back` on; the bytes appended may be read again. */
  function CopyRun(output: seq<Byte>, back: nat, n: nat): (r: seq<Byte>)
    requires back < |output|
    ensures |r| == |output| + n
    decreases n
  {
    if n == 0 then output else CopyRun(output + [output[back]], back + 1, n - 1)
  }

  /** The output after one pair: the literal, then its run. */
  function Emit(output: seq<Byte>, t: Table, v: Byte, n: nat): (r: seq<Byte>)
    requires Within(t, |output|)
    ensures |r| == |output| + 1 + n
  {
    CopyRun(output + [v], t[v], n)
  }

  /** What a stream of pairs adds to output already decoded. */
  function DecodeFrom(codes: seq<Byte>, t: Table, output: seq<Byte>): (r: seq<Byte>)
    requires Within(t, |output|)
    ensures |output| <= |r| && (|codes| >= 2 ==> |output| < |r|)
    decreases |codes|
  {
    if |codes| < 2 then output
    else
      var v := codes[0];
      DecodeFrom(codes[2..], Seen(t, v, |output| + 1), Emit(output, t, v, codes[1]))
  }

  lemma DecodePair(v: Byte, n: Byte, rest: seq<Byte>, t: Table, output: seq<Byte>)
    requires Within(t, |output|)
    ensures DecodeFrom([v, n] + rest, t, output) == DecodeFrom(rest, Seen(t, v, |output| + 1), Emit(output, t, v, n))
  {
    assert ([v, n] + rest)[2..] == rest;
  }

  function Decode(codes: seq<Byte>): seq<Byte> {
    DecodeFrom(codes, START, [])
  }

  /** The table after a stream of pairs. */
  function TableAfter(codes: seq<Byte>, t: Table, output: seq<Byte>): (u: Table)
    requires Within(t, |output|)
    ensures Within(u, |DecodeFrom(codes, t, output)|)
    decreases |codes|
  {
    if |codes| < 2 then t
    else
      var v := codes[0];
      TableAfter(codes[2..], Seen(t, v, |output| + 1), Emit(output, t, v, codes[1]))
  }

  lemma {:induction false} PairBehind(codes: seq<Byte>, v: Byte, n: Byte, t: Table, output: seq<Byte>)
    requires |codes| % 2 == 0 && Within(t, |output|)
    ensures var u, r := TableAfter(codes, t, output), DecodeFrom(codes, t, output);
            && DecodeFrom(codes + [v, n], t, output) == CopyRun(r + [v], u[v], n)
            && TableAfter(codes + [v, n], t, output) == u[v := |r| + 1]
    decreases |codes|
  {
    if codes == [] {
      assert codes + [v, n] == [v, n] + [] && ([v, n] + [])[2..] == [];
    } else {
      var w := codes[0];
      assert (codes + [v, n])[2..] == codes[2..] + [v, n];
      PairBehind(codes[2..], v, n, Seen(t, w, |output| + 1), Emit(output, t, w, codes[1]));
    }
  }

  /** Where the output goes on behind the literal of the last pair for `v`; 0 if there is none. */
  function Behind(codes: seq<Byte>, v: Byte): nat
    decreases |codes|
  {
    var k := |codes| - 2;
    if k < 0 then 0 else if codes[k] == v then |Decode(codes[..k])| + 1 else Behind(codes[..k], v)
  }

  lemma {:induction false} TableIsBehind(codes: seq<Byte>, v: Byte)
    requires |codes| % 2 == 0
    ensures TableAfter(codes, START, [])[v] == Behind(codes, v)
    decreases |codes|
  {
    if codes != [] {
      var k := |codes| - 2;
      assert codes == codes[..k] + [codes[k], codes[k + 1]];
      TableIsBehind(codes[..k], v);
      PairBehind(codes[..k], codes[k], codes[k + 1], START, []);
    }
  }

  /** The format, without a table: one more pair puts its literal behind the output, and then as many bytes as it says,
      from where the output went on behind the literal's last occurrence as a literal. */
  lemma DecodeOneMore(codes: seq<Byte>, v: Byte, n: Byte)
    requires |codes| % 2 == 0
    ensures Behind(codes, v) <= |Decode(codes)|
    ensures Decode(codes + [v, n]) == CopyRun(Decode(codes) + [v], Behind(codes, v), n)
  {
    PairBehind(codes, v, n, START, []);
    TableIsBehind(codes, v);
  }

  /** How far the data at `pos` repeats the data at `back`, up to `limit` bytes. */
  function MatchLen(data: seq<Byte>, back: nat, pos: nat, limit: nat): (n: nat)
    requires back < pos <= |data|
    ensures n <= limit && pos + n <= |data|
    decreases |data| - pos
  {
    if limit > 0 && pos < |data| && data[pos] == data[back] then 1 + MatchLen(data, back + 1, pos + 1, limit - 1)
    else 0
  }

  lemma SliceCons(data: seq<Byte>, pos: nat, n: nat)
    requires pos + 1 + n <= |data|
    ensures data[pos..pos + 1 + n] == [data[pos]] + data[pos + 1..pos + 1 + n]
  {
  }

  /** It is a match, and the longest allowed. */
  lemma {:induction false} MatchLenIsLongest(data: seq<Byte>, back: nat, pos: nat, limit: nat)
    requires back < pos <= |data|
    ensures var n := MatchLen(data, back, pos, limit);
            && data[pos..pos + n] == data[back..back + n]
            && (n == limit || pos + n == |data| || data[pos + n] != data[back + n])
    decreases |data| - pos
  {
    if limit > 0 && pos < |data| && data[pos] == data[back] {
      var m := MatchLen(data, back + 1, pos + 1, limit - 1);
      MatchLenIsLongest(data, back + 1, pos + 1, limit - 1);
      SliceCons(data, pos, m);
      SliceCons(data, back, m);
      assert MatchLen(data, back, pos, limit) == 1 + m && pos + (1 + m) == (pos + 1) + m;
      hide MatchLen;
    }
  }

  /** Pairs for a stretch of the data and how much of the data they stand for. */
  datatype Encoding = Encoding(codes: seq<Byte>, used: nat)

  function EncodeFrom(data: seq<Byte>, pos: nat, t: Table, room: nat): (e: Encoding)
    requires pos <= |data| && Within(t, pos)
    ensures |e.codes| <= room && |e.codes| % 2 == 0
    ensures pos <= e.used <= |data|
    decreases |data| - pos
  {
    if pos < |data| && room >= 2 then
      var v := data[pos];
      var n := MatchLen(data, t[v], pos + 1, 255);
      var rest := EncodeFrom(data, pos + 1 + n, Seen(t, v, pos + 1), room - 2);
      Encoding([v, n] + rest.codes, rest.used)
    else Encoding([], pos)
  }

  function Encode(data: seq<Byte>, room: nat): Encoding {
    EncodeFrom(data, 0, START, room)
  }

  /** A run that copies a match rebuilds the data. */
  lemma {:induction false} CopyRunOfMatch(data: seq<Byte>, back: nat, pos: nat, n: nat)
    requires back < pos && pos + n <= |data|
    requires data[pos..pos + n] == data[back..back + n]
    ensures CopyRun(data[..pos], back, n) == data[..pos + n]
    decreases n
  {
    if n > 0 {
      assert data[pos] == data[pos..pos + n][0] == data[back..back + n][0] == data[back];
      assert data[..pos] + [data[..pos][back]] == data[..pos + 1];
      assert data[pos + 1..pos + n] == data[pos..pos + n][1..] == data[back..back + n][1..] == data[back + 1..back + n];
      CopyRunOfMatch(data, back + 1, pos + 1, n - 1);
    }
  }

  /** The pair for the data at `pos` rebuilds the data as far as its run goes. */
  lemma EmitRebuilds(data: seq<Byte>, pos: nat, t: Table)
    requires pos < |data| && Within(t, pos)
    ensures var n := MatchLen(data, t[data[pos]], pos + 1, 255);
            Emit(data[..pos], t, data[pos], n) == data[..pos + 1 + n]
  {
    var v := data[pos];
    assert data[..pos] + [v] == data[..pos + 1];
    MatchLenIsLongest(data, t[v], pos + 1, 255);
    CopyRunOfMatch(data, t[v], pos + 1, MatchLen(data, t[v], pos + 1, 255));
  }

  /** One step of the encoder is one pair in front of the rest. */
  lemma EncodePair(data: seq<Byte>, pos: nat, t: Table, room: nat, n: nat, rest: Encoding)
    requires pos < |data| && room >= 2 && Within(t, pos)
    requires n == MatchLen(data, t[data[pos]], pos + 1, 255)
    requires rest == EncodeFrom(data, pos + 1 + n, Seen(t, data[pos], pos + 1), room - 2)
    ensures EncodeFrom(data, pos, t, room).codes == [data[pos], n] + rest.codes
    ensures EncodeFrom(data, pos, t, room).used == rest.used
  {
  }

  lemma DecodeStep(data: seq<Byte>, pos: nat, t: Table, v: Byte, n: Byte, rest: Encoding)
    requires pos + 1 + n <= rest.used <= |data| && Within(t, pos)
    requires Emit(data[..pos], t, v, n) == data[..pos + 1 + n]
    requires DecodeFrom(rest.codes, Seen(t, v, pos + 1), data[..pos + 1 + n]) == data[..rest.used]
    ensures DecodeFrom([v, n] + rest.codes, t, data[..pos]) == data[..rest.used]
  {
    DecodePair(v, n, rest.codes, t, data[..pos]);
  }

  lemma DecodeOfNothing(t: Table, output: seq<Byte>)
    requires Within(t, |output|)
    ensures DecodeFrom([], t, output) == output
  {
  }

  lemma DecodeOfPair(data: seq<Byte>, pos: nat, t: Table, room: nat, v: Byte, n: Byte, rest: Encoding)
    requires pos < |data| && room >= 2 && Within(t, pos)
    requires v == data[pos] && n == MatchLen(data, t[v], pos + 1, 255)
    requires rest == EncodeFrom(data, pos + 1 + n, Seen(t, v, pos + 1), room - 2)
    requires DecodeFrom(rest.codes, Seen(t, v, pos + 1), data[..pos + 1 + n]) == data[..rest.used]
    ensures var e := EncodeFrom(data, pos, t, room); DecodeFrom(e.codes, t, data[..pos]) == data[..e.used]
  {
    EmitRebuilds(data, pos, t);
    DecodeStep(data, pos, t, v, n, rest);
    EncodePair(data, pos, t, room, n, rest);
  }

  lemma {:induction false} DecodeOfEncodeFrom(data: seq<Byte>, pos: nat, t: Table, room: nat)
    requires pos <= |data| && Within(t, pos)
    ensures var e := EncodeFrom(data, pos, t, room); DecodeFrom(e.codes, t, data[..pos]) == data[..e.used]
    decreases |data| - pos
  {
    hide DecodeFrom, MatchLen;
    if pos < |data| && room >= 2 {
      var v := data[pos];
      var n := MatchLen(data, t[v], pos + 1, 255);
      var u := Seen(t, v, pos + 1);
      hide Within, Seen, EncodeFrom;
      DecodeOfEncodeFrom(data, pos + 1 + n, u, room - 2);
      DecodeOfPair(data, pos, t, room, v, n, EncodeFrom(data, pos + 1 + n, u, room - 2));
    } else {
      DecodeOfNothing(t, data[..pos]);
    }
  }

  /** Decoding what was encoded gives back exactly the bytes that were taken. */
  lemma RoundTrip(data: seq<Byte>, room: nat)
    ensures var e := Encode(data, room);
            |e.codes| <= room && |e.codes| % 2 == 0 && Decode(e.codes) == data[..e.used]
  {
    DecodeOfEncodeFrom(data, 0, START, room);
    assert data[..0] == [];
  }

  lemma SliceOfLonger(s: seq<Byte>, x: Byte, a: nat, b: nat)
    requires a <= b <= |s|
    ensures (s + [x])[a..b] == s[a..b]
  {
  }

  /** A run that stays behind the end copies a slice, so a block copy does the same. */
  lemma {:induction false} RunWithoutOverlap(output: seq<Byte>, back: nat, n: nat)
    requires back + n <= |output| && back < |output|
    ensures CopyRun(output, back, n) == output + output[back..back + n]
    decreases n
  {
    if n > 0 {
      var longer := output + [output[back]];
      RunWithoutOverlap(longer, back + 1, n - 1);
      SliceOfLonger(output, output[back], back + 1, back + n);
      SliceCons(output, back, n - 1);
    } else {
      assert output[back..back] == [];
    }
  }

  lemma {:induction false} CopyRunKeeps(output: seq<Byte>, back: nat, n: nat)
    requires back < |output|
    ensures output <= CopyRun(output, back, n)
    decreases n
  {
    if n > 0 {
      CopyRunKeeps(output + [output[back]], back + 1, n - 1);
    }
  }

  /** A run that overlaps its own output repeats the last stretch over and over. */
  lemma {:induction false} RunIsPeriodic(output: seq<Byte>, back: nat, n: nat, k: nat)
    requires back < |output| && k < n
    ensures CopyRun(output, back, n)[|output| + k] == CopyRun(output, back, n)[back + k]
    decreases n
  {
    var longer := output + [output[back]];
    if k == 0 {
      CopyRunKeeps(longer, back + 1, n - 1);
    } else {
      RunIsPeriodic(longer, back + 1, n - 1, k - 1);
    }
  }

  /** A 16-bit signed cell. */
  function ToShort(n: int): int {
    (n + 0x8000) % 0x1_0000 - 0x8000
  }

  /** Counts how far the data at `start` repeats the data at `back`. */
  method RunLength(data: seq<Byte>, back: nat, start: nat) returns (runlen: nat)
    requires back < start <= |data|
    ensures runlen == MatchLen(data, back, start, 255)
  {
    var pos, backpos := start, back;
    runlen := 0;
    while backpos < pos < |data| && data[pos] == data[backpos] && runlen < 255
      invariant runlen <= 255 && pos == start + runlen <= |data| && backpos == back + runlen
      invariant runlen + MatchLen(data, backpos, pos, 255 - runlen) == MatchLen(data, back, start, 255)
      decreases |data| - pos
    {
      pos, runlen, backpos := pos + 1, runlen + 1, backpos + 1;
    }
  }

  /** The 16-bit cells hold the table. */
  predicate Mirrors(cells: seq<int>, t: Table) {
    |cells| == 256 && forall k :: 0 <= k < 256 ==> cells[k] == t[k]
  }

  lemma MirrorsSeen(cells: seq<int>, t: Table, v: Byte, n: nat)
    requires Mirrors(cells, t) && Within(t, n)
    ensures Mirrors(cells[v := n], Seen(t, v, n))
  {
  }

  /** One turn of the compressor's loop: stores the literal and the length of its run, notes
      where the literal occurred, and returns the position after the run. */
  method EmitPair(data: seq<Byte>, start: nat, output: array<Byte>, outpos: nat, positions: array<int>, ghost t: Table)
    returns (pos: nat)
    requires start < |data| < 0x8000 && outpos + 2 <= output.Length
    requires Within(t, start) && Mirrors(positions[..], t)
    modifies output, positions
    ensures output[..outpos + 2] == old(output[..outpos]) + [data[start], pos - start - 1]
    ensures forall k | outpos + 2 <= k < output.Length :: output[k] == old(output[k])
    ensures pos == start + 1 + MatchLen(data, t[data[start]], start + 1, 255)
    ensures Mirrors(positions[..], Seen(t, data[start], start + 1))
  {
    hide MatchLen;
    MirrorsSeen(positions[..], t, data[start], start + 1);
    var value := data[start];
    output[outpos] := data[start];
    pos := start + 1;
    var backpos := positions[value];
    positions[value] := ToShort(pos);
    var runlen := RunLength(data, backpos, pos);
    pos := pos + runlen;
    output[outpos + 1] := runlen;
    assert positions[..] == old(positions[..])[value := start + 1];
  }

  /** What is written so far, followed by the encoding of what is left, is the whole encoding. */
  ghost predicate Leads(done: seq<Byte>, data: seq<Byte>, pos: nat, t: Table, room: nat, all: Encoding)
    requires pos <= |data| && Within(t, pos)
  {
    var rest := EncodeFrom(data, pos, t, room);
    all.codes == done + rest.codes && all.used == rest.used
  }

  lemma LeadsOnBy(done: seq<Byte>, data: seq<Byte>, pos: nat, t: Table, room: nat, all: Encoding, n: nat,
                  rest: Encoding)
    requires pos < |data| && room >= 2 && Within(t, pos)
    requires Leads(done, data, pos, t, room, all)
    requires n == MatchLen(data, t[data[pos]], pos + 1, 255)
    requires rest == EncodeFrom(data, pos + 1 + n, Seen(t, data[pos], pos + 1), room - 2)
    ensures all.codes == done + [data[pos], n] + rest.codes && all.used == rest.used
  {
    EncodePair(data, pos, t, room, n, rest);
    assert done + ([data[pos], n] + rest.codes) == done + [data[pos], n] + rest.codes;
  }

  lemma LeadsOn(done: seq<Byte>, data: seq<Byte>, pos: nat, t: Table, room: nat, all: Encoding, n: nat)
    requires pos < |data| && room >= 2 && Within(t, pos)
    requires Leads(done, data, pos, t, room, all)
    requires n == MatchLen(data, t[data[pos]], pos + 1, 255)
    ensures Leads(done + [data[pos], n], data, pos + 1 + n, Seen(t, data[pos], pos + 1), room - 2, all)
  {
    LeadsOnBy(done, data, pos, t, room, all, n, EncodeFrom(data, pos + 1 + n, Seen(t, data[pos], pos + 1), room - 2));
  }

  lemma LeadsEnd(done: seq<Byte>, data: seq<Byte>, pos: nat, t: Table, room: nat, all: Encoding)
    requires pos <= |data| && (pos == |data| || room < 2) && Within(t, pos)
    requires Leads(done, data, pos, t, room, all)
    ensures all == Encoding(done, pos)
  {
    assert done + [] == done;
  }

  /** The compressor's loop. */
  method EmitPairs(data: seq<Byte>, output: array<Byte>, dstLen: nat) returns (pos: nat, outpos: nat)
    requires |data| < 0x8000
    requires 2 <= dstLen <= output.Length
    modifies output
    ensures outpos <= dstLen && Encode(data, dstLen) == Encoding(output[..outpos], pos)
    ensures forall k | dstLen <= k < output.Length :: output[k] == old(output[k])
  {
    var positions := new int[256](_ => 0);
    pos, outpos := 0, 0;
    ghost var t: Table := START;
    ghost var all := Encode(data, dstLen);
    ghost var done: seq<Byte>, room := [], dstLen;
    assert Leads(done, data, pos, t, room, all) && Mirrors(positions[..], t);
    hide EncodeFrom, MatchLen, Mirrors;
    while pos < |data| && outpos <= dstLen - 2
      invariant 0 <= outpos <= dstLen && 0 <= pos <= |data| && room == dstLen - outpos
      invariant Within(t, pos) && Mirrors(positions[..], t)
      invariant done == output[..outpos] && Leads(done, data, pos, t, room, all)
      invariant forall k | dstLen <= k < output.Length :: output[k] == old(output[k])
      decreases |data| - pos
    {
      ghost var v, n := data[pos], MatchLen(data, t[data[pos]], pos + 1, 255);
      LeadsOn(done, data, pos, t, room, all, n);
      ghost var u := Seen(t, v, pos + 1);
      done, room := done + [v, n], room - 2;
      pos := EmitPair(data, pos, output, outpos, positions, t);
      t := u;
      outpos := outpos + 2;
    }
    LeadsEnd(done, data, pos, t, room, all);
  }

  /** Compresses as much of `data` as fits. Returns 0 and both lengths, or -1 with the lengths
      untouched when nothing was gained. Last occurrences are kept in 16-bit cells. */
  method Compress(data: seq<Byte>, output: array<Byte>, dstLen: nat) returns (ret: int, used: nat, size: nat)
    requires |data| < 0x8000
    requires 2 <= dstLen <= output.Length
    modifies output
    ensures var e := Encode(data, dstLen);
            if e.used <= |e.codes| then ret == -1 && used == |data| && size == dstLen
            else ret == 0 && used == e.used && size == |e.codes| <= dstLen && output[..size] == e.codes
    ensures ret == 0 ==> Decode(output[..size]) == data[..used] && size < used
    ensures forall k | dstLen <= k < output.Length :: output[k] == old(output[k])
  {
    var pos, outpos := EmitPairs(data, output, dstLen);
    if outpos >= pos {
      return -1, |data|, dstLen;
    }
    RoundTrip(data, dstLen);
    return 0, pos, outpos;
  }

  /** One run of the decoder: byte by byte when it reaches its own output, else one block copy. */
  method Repeat(output: array<Byte>, start: nat, back: nat, repeat: nat) returns (outpos: nat)
    requires back < start && start + repeat <= output.Length
    modifies output
    ensures outpos == start + repeat
    ensures output[..outpos] == CopyRun(old(output[..start]), back, repeat)
    ensures forall k | outpos <= k < output.Length :: output[k] == old(output[k])
  {
    outpos := start;
    ghost var before := output[..start];
    if repeat > 0 {
      if back + repeat >= outpos {
        var from, left := back, repeat;
        while left > 0
          invariant 0 <= left <= repeat && outpos + left == start + repeat && from + left == back + repeat
          invariant CopyRun(output[..outpos], from, left) == CopyRun(before, back, repeat)
          invariant forall k | outpos <= k < output.Length :: output[k] == old(output[k])
        {
          ghost var sofar := output[..outpos];
          output[outpos] := output[from];
          assert output[..outpos + 1] == sofar + [sofar[from]];
          outpos, from, left := outpos + 1, from + 1, left - 1;
        }
      } else {
        RunWithoutOverlap(before, back, repeat);
        forall k | 0 <= k < repeat {
          output[outpos + k] := output[back + k];
        }
        outpos := outpos + repeat;
        assert output[..outpos] == before + before[back..back + repeat];
      }
    }
  }

  /** One turn of the decompressor's loop: the literal, then its run. */
  method ExpandPair(value: Byte, repeat: nat, output: array<Byte>, start: nat, positions: array<int>)
    returns (outpos: nat)
    requires start + 1 + repeat <= output.Length && start + 1 < 0x8000
    requires positions.Length == 256 && 0 <= positions[value] <= start
    modifies output, positions
    ensures outpos == start + 1 + repeat
    ensures output[..outpos] == CopyRun(old(output[..start]) + [value], old(positions[value]), repeat)
    ensures forall k | outpos <= k < output.Length :: output[k] == old(output[k])
    ensures positions[..] == old(positions[..])[value := start + 1]
  {
    output[start] := value;
    outpos := start + 1;
    var backoffs := positions[value];
    positions[value] := ToShort(outpos);
    assert output[..outpos] == old(output[..start]) + [value];
    outpos := Repeat(output, outpos, backoffs, repeat);
  }

  /** Expands pairs until `destLen` bytes are out; returns how many code bytes it took. `codes`,
      which only the proof looks at, is the part of the input that stands for those bytes. */
  method Decompress(data: seq<Byte>, output: array<Byte>, destLen: nat, ghost codes: seq<Byte>) returns (taken: nat)
    requires codes <= data && |codes| % 2 == 0
    requires |Decode(codes)| == destLen <= output.Length && destLen < 0x8000
    modifies output
    ensures output[..destLen] == Decode(codes)
    ensures forall k | destLen <= k < output.Length :: output[k] == old(output[k])
    ensures taken == |codes|
  {
    var positions := new int[256](_ => 0);
    var outpos, pos := 0, 0;
    ghost var t: Table, all, pairs := START, Decode(codes), |codes| / 2;
    ghost var done: seq<Byte>, rest := [], codes;
    while outpos < destLen
      invariant |rest| == 2 * pairs && pos + |rest| == |codes| && rest == codes[pos..]
      invariant outpos <= destLen && done == output[..outpos]
      invariant Within(t, outpos) && Mirrors(positions[..], t)
      invariant DecodeFrom(rest, t, done) == all
      invariant forall k | destLen <= k < output.Length :: output[k] == old(output[k])
      decreases destLen - outpos
    {
      assert |rest| >= 2;
      var value, repeat := data[pos], data[pos + 1];
      ghost var longer := Emit(done, t, value, repeat);
      assert DecodeFrom(rest[2..], Seen(t, value, outpos + 1), longer) == all;
      t := Seen(t, value, outpos + 1);
      outpos := ExpandPair(value, repeat, output, outpos, positions);
      pos := pos + 2;
      done, rest, pairs := longer, rest[2..], pairs - 1;
    }
    taken := pos;
  }
}
