/** The variable-width LZW coder behind the GIF writer, and a decoder for it
    written from appendix F of the GIF89a specification. */
module Lzw {
  import opened Bytes
  import opened Options

  const CLEAR := 256
  const EOI := 257
  const FIRST_FREE := 258
  const MIN_WIDTH := 9
  const MAX_WIDTH := 12
  const TABLE_LIMIT := 4096

  /** A code and the number of bits it is written in. */
  datatype Token = Token(code: nat, width: nat)

  function Pack(ts: seq<Token>): seq<bool> {
    if ts == [] then [] else LowBits(ts[0].code, ts[0].width) + Pack(ts[1..])
  }

  lemma PackCons(t: Token, ts: seq<Token>)
    ensures Pack([t] + ts) == LowBits(t.code, t.width) + Pack(ts)
  {
    assert ([t] + ts)[1..] == ts;
  }

  // ------------------------------------------------------------- encoder

  /** The coder's variables: `dict`, `next`, `size` and `cur`. */
  datatype Enc = Enc(dict: map<(nat, byte), nat>, next: nat, size: nat, cur: nat)

  function Reset(b: byte): Enc {
    Enc(map[], FIRST_FREE, MIN_WIDTH, b)
  }

  /** The state after `(cur, b)` was entered under code `next`. */
  function Inserted(e: Enc, b: byte): Enc {
    Enc(e.dict[(e.cur, b) := e.next], e.next + 1,
        if e.next == Pow2(e.size) && e.size < MAX_WIDTH then e.size + 1 else e.size, b)
  }

  /** Every token the coder writes from state `e` on input `rest`. */
  function Codes(e: Enc, rest: seq<byte>): seq<Token>
    decreases |rest|
  {
    if rest == [] then
      [Token(e.cur, e.size), Token(EOI, e.size)]
    else if (e.cur, rest[0]) in e.dict then
      Codes(e.(cur := e.dict[(e.cur, rest[0])]), rest[1..])
    else if e.next < TABLE_LIMIT then
      [Token(e.cur, e.size)] + Codes(Inserted(e, rest[0]), rest[1..])
    else
      [Token(e.cur, e.size), Token(CLEAR, e.size)] + Codes(Reset(rest[0]), rest[1..])
  }

  /** The bit accumulator the emitting closure captures. Since `acc` never has
      a bit at or above `nbits`, `acc |= code << nbits` is an addition. */
  class BitWriter {
    var acc: nat
    var nbits: nat
    var out: seq<byte>

    ghost predicate Valid()
      reads this
    {
      nbits < 8 && acc < Pow2(nbits)
    }

    ghost function Bits(): seq<bool>
      reads this
    {
      BitsOf(out) + LowBits(acc, nbits)
    }

    constructor ()
      ensures Valid() && Bits() == []
    {
      acc, nbits, out := 0, 0, [];
    }

    method Emit(code: nat, size: nat)
      requires Valid() && size <= MAX_WIDTH && code < Pow2(size)
      modifies this
      ensures Valid() && Bits() == old(Bits()) + LowBits(code, size)
    {
      hide BitsOf, LowBits, Pow2, Shl;
      FitsU32(acc, nbits, code, size);
      PushCode(out, acc, nbits, code, size);
      acc := acc + Shl(code, nbits);
      nbits := nbits + size;
      while nbits >= 8
        invariant acc < Pow2(nbits)
        invariant Bits() == old(Bits()) + LowBits(code, size)
      {
        TakeByte();
      }
    }

    /** One round of the closure's loop. */
    method TakeByte()
      requires nbits >= 8 && acc < Pow2(nbits)
      modifies this
      ensures acc < Pow2(nbits) && nbits == old(nbits) - 8 && Bits() == old(Bits())
    {
      DropByte(out, acc, nbits);
      out := out + [acc % 256];
      acc := acc / 256;
      nbits := nbits - 8;
    }

    /** The last partial byte, if any, padded with zero bits. */
    method Flush() returns (ghost pad: seq<bool>)
      requires Valid()
      modifies this
      ensures |pad| < 8 && AllFalse(pad) && BitsOf(out) == old(Bits()) + pad
    {
      pad := [];
      if nbits > 0 {
        PadByte(out, acc, nbits);
        ZeroBits(8 - nbits);
        pad := LowBits(0, 8 - nbits);
        out := out + [acc];
      }
    }
  }

  ghost predicate AllFalse(bits: seq<bool>) {
    forall i :: 0 <= i < |bits| ==> !bits[i]
  }

  lemma {:induction false} ZeroBits(n: nat)
    ensures AllFalse(LowBits(0, n))
  {
    if n > 0 {
      ZeroBits(n - 1);
    }
  }

  lemma {:induction false} Pow2Mono(m: nat, n: nat)
    requires m <= n
    ensures Pow2(m) <= Pow2(n)
  {
    if m < n {
      Pow2Mono(m, n - 1);
    }
  }

  /** A code fits above the pending bits, far inside 32 bits. */
  lemma FitsU32(acc: nat, nbits: nat, code: nat, size: nat)
    requires nbits < 8 && acc < Pow2(nbits) && size <= MAX_WIDTH && code < Pow2(size)
    ensures acc + Shl(code, nbits) < Pow2(nbits + size) <= Pow2(20)
  {
    Pow2Add(nbits, size);
    Pow2Mono(nbits + size, 20);
    BelowProduct(acc, Pow2(nbits), code, Pow2(size));
  }

  lemma BelowProduct(a: nat, p: nat, c: nat, q: nat)
    requires a < p && c < q
    ensures a + c * p < p * q
  {
    assert (c + 1) * p <= q * p;
  }

  lemma PushCode(out: seq<byte>, acc: nat, nbits: nat, code: nat, size: nat)
    requires acc < Pow2(nbits)
    ensures BitsOf(out) + LowBits(acc + Shl(code, nbits), nbits + size)
         == BitsOf(out) + LowBits(acc, nbits) + LowBits(code, size)
  {
    LowBitsAppend(acc, nbits, code, size);
    Regroup(BitsOf(out), LowBits(acc, nbits), LowBits(code, size));
  }

  /** Moving the low byte out changes no bit of the stream. */
  lemma DropByte(out: seq<byte>, acc: nat, n: nat)
    requires n >= 8 && acc < Pow2(n)
    ensures BitsOf(out + [acc % 256]) + LowBits(acc / 256, n - 8) == BitsOf(out) + LowBits(acc, n)
    ensures acc / 256 < Pow2(n - 8)
  {
    SplitByte(acc, n);
    BitsOfAppend(out, acc % 256);
    Regroup(BitsOf(out), LowBits(acc % 256, 8), LowBits(acc / 256, n - 8));
  }

  lemma SplitByte(acc: nat, n: nat)
    requires n >= 8 && acc < Pow2(n)
    ensures LowBits(acc, n) == LowBits(acc % 256, 8) + LowBits(acc / 256, n - 8)
    ensures acc / 256 < Pow2(n - 8)
  {
    Pow2Values();
    Pow2Add(8, n - 8);
    LowBitsAppend(acc % 256, 8, acc / 256, n - 8);
  }

  lemma PadByte(out: seq<byte>, acc: nat, n: nat)
    requires n < 8 && acc < Pow2(n)
    ensures acc < 256
    ensures BitsOf(out + [acc]) == BitsOf(out) + LowBits(acc, n) + LowBits(0, 8 - n)
  {
    Pow2Values();
    Pow2Mono(n, 8);
    PadTo(acc, n, 8);
    BitsOfAppend(out, acc);
  }

  lemma PadTo(acc: nat, n: nat, m: nat)
    requires n <= m && acc < Pow2(n)
    ensures LowBits(acc, m) == LowBits(acc, n) + LowBits(0, m - n)
  {
    LowBitsAppend(acc, n, 0, m - n);
  }

  // ------------------------------------------------------------- decoder

  /** What a reader knows of the codes: the clear code, the end of information,
      the first free code and the width it starts with. */
  datatype Rules = Rules(clear: nat, end: nat, free: nat, width: nat)

  /** They follow from the minimum code size that comes before the data. */
  function RulesFor(min: nat): Rules {
    Rules(Pow2(min), Pow2(min) + 1, Pow2(min) + 2, min + 1)
  }

  /** Codes have twelve bits at most. */
  const WIDEST := 12

  datatype Dec = Dec(table: seq<seq<byte>>, size: nat, prev: Option<nat>)

  function FreshDec(r: Rules): Dec {
    Dec([], r.width, None)
  }

  /** What code `c` stands for: a root, or an entry of the table. */
  function Str(r: Rules, table: seq<seq<byte>>, c: nat): seq<byte> {
    if c < r.clear && c < 256 then [c as byte]
    else if r.free <= c < r.free + |table| then table[c - r.free]
    else []
  }

  /** The number in the `n` bits at `pos`, least significant first; bits past
      the end are zero. */
  function ReadCode(bits: seq<bool>, pos: nat, n: nat): nat
    decreases n
  {
    if n == 0 then 0
    else (if pos < |bits| && bits[pos] then 1 else 0) + 2 * ReadCode(bits, pos + 1, n - 1)
  }

  /** One data code: the string it stands for and the state after it. */
  function Step(r: Rules, d: Dec, code: nat): Option<(Dec, seq<byte>)> {
    match d.prev
    case None =>
      if code < r.clear && code < 256 then Some((d.(prev := Some(code)), [code as byte])) else None
    case Some(p) =>
      var last, next := Str(r, d.table, p), r.free + |d.table|;
      if last == [] then None
      else
        var s := if code == next then last + [last[0]] else Str(r, d.table, code);
        if s == [] then None
        else if next >= Pow2(WIDEST) then Some((d.(prev := Some(code)), s))
        else
          var size := if next + 1 == Pow2(d.size) && d.size < WIDEST then d.size + 1 else d.size;
          Some((Dec(d.table + [last + [s[0]]], size, Some(code)), s))
  }

  function DecodeFrom(r: Rules, d: Dec, bits: seq<bool>, pos: nat): Option<seq<byte>>
    decreases |bits| - pos
  {
    if pos >= |bits| || d.size == 0 then None
    else
      var code := ReadCode(bits, pos, d.size);
      if code == r.clear then DecodeFrom(r, FreshDec(r), bits, pos + d.size)
      else if code == r.end then Some([])
      else
        match Step(r, d, code)
        case None => None
        case Some((d', s)) => Prepend(s, DecodeFrom(r, d', bits, pos + d.size))
  }

  function Prepend(s: seq<byte>, o: Option<seq<byte>>): Option<seq<byte>> {
    match o
    case None => None
    case Some(t) => Some(s + t)
  }

  function Decode(min: nat, data: seq<byte>): Option<seq<byte>> {
    DecodeFrom(RulesFor(min), FreshDec(RulesFor(min)), BitsOf(data), 0)
  }

  // ------------------------------------------- from bits to tokens and back

  /** The decoder on tokens: each must have the width it is about to read, but
      end-of-information may be narrower, as nothing but zeros follows it. */
  function Run(r: Rules, d: Dec, ts: seq<Token>): Option<seq<byte>>
    decreases |ts|
  {
    if ts == [] || ts[0].width == 0 || ts[0].code >= Pow2(ts[0].width) then None
    else if ts[0].code == r.end then
      if |ts| == 1 && ts[0].width <= d.size then Some([]) else None
    else if ts[0].width != d.size then None
    else if ts[0].code == r.clear then Run(r, FreshDec(r), ts[1..])
    else
      match Step(r, d, ts[0].code)
      case None => None
      case Some((d', s)) => Prepend(s, Run(r, d', ts[1..]))
  }

  /** Reading the packed bits gives the tokens back. */
  lemma {:induction false} DecodesPacked(r: Rules, d: Dec, ts: seq<Token>, bits: seq<bool>, pos: nat, pad: seq<bool>)
    requires Run(r, d, ts).Some? && r.clear != r.end
    requires pos <= |bits| && bits[pos..] == Pack(ts) + pad && AllFalse(pad)
    ensures DecodeFrom(r, d, bits, pos) == Run(r, d, ts)
    decreases |ts|
  {
    PackedRead(r, d, ts, bits, pos, pad);
    if ts[0].code == r.end {
      PackedEnd(r, d, ts, bits, pos);
    } else {
      var d', rest := RunTail(r, d, ts);
      var at := pos + d.size;
      DecodesPacked(r, d', rest, bits, at, pad);
      PackedStep(r, d, ts, d', rest, bits, pos, at);
    }
  }

  /** The state and the tokens after one that is not end-of-information. */
  lemma RunTail(r: Rules, d: Dec, ts: seq<Token>) returns (d': Dec, rest: seq<Token>)
    requires Run(r, d, ts).Some? && ts[0].code != r.end
    ensures rest == ts[1..] && Next(r, d, ts[0].code, d') && Run(r, d', rest).Some?
  {
    d' := if ts[0].code == r.clear then FreshDec(r) else Step(r, d, ts[0].code).value.0;
    rest := ts[1..];
  }

  ghost predicate Next(r: Rules, d: Dec, code: nat, d': Dec) {
    if code == r.clear then d' == FreshDec(r) else Step(r, d, code).Some? && Step(r, d, code).value.0 == d'
  }

  lemma PackedEnd(r: Rules, d: Dec, ts: seq<Token>, bits: seq<bool>, pos: nat)
    requires Run(r, d, ts).Some? && ts[0].code == r.end != r.clear
    requires pos < |bits| && ReadCode(bits, pos, d.size) == r.end
    ensures DecodeFrom(r, d, bits, pos) == Run(r, d, ts)
  {
  }

  lemma PackedRead(r: Rules, d: Dec, ts: seq<Token>, bits: seq<bool>, pos: nat, pad: seq<bool>)
    requires Run(r, d, ts).Some?
    requires pos <= |bits| && bits[pos..] == Pack(ts) + pad && AllFalse(pad)
    ensures pos < |bits| && d.size > 0 && ReadCode(bits, pos, d.size) == ts[0].code
    ensures ts[0].code != r.end ==> pos + d.size <= |bits| && bits[pos + d.size..] == Pack(ts[1..]) + pad
  {
    var code, width := ts[0].code, ts[0].width;
    Regroup(LowBits(code, width), Pack(ts[1..]), pad);
    if code == r.end {
      assert Pack(ts[1..]) + pad == pad;
      ReadsLast(bits, pos, r.end, width, d.size - width, pad);
    } else {
      ReadsPacked(bits, pos, code, width, Pack(ts[1..]) + pad);
    }
  }

  lemma {:induction false} PackedStep(r: Rules, d: Dec, ts: seq<Token>, d': Dec, rest: seq<Token>, bits: seq<bool>,
                                      pos: nat, at: nat)
    requires Run(r, d, ts).Some? && ts[0].code != r.end && rest == ts[1..] && Next(r, d, ts[0].code, d')
    requires pos < |bits| && ReadCode(bits, pos, d.size) == ts[0].code && at == pos + d.size
    requires DecodeFrom(r, d', bits, at) == Run(r, d', rest)
    ensures DecodeFrom(r, d, bits, pos) == Run(r, d, ts)
  {
  }

  lemma RunData(r: Rules, d: Dec, code: nat, d': Dec, s: seq<byte>, after: seq<Token>)
    requires d.size > 0 && code < Pow2(d.size) && code != r.clear && code != r.end && Step(r, d, code) == Some((d', s))
    ensures Run(r, d, [Token(code, d.size)] + after) == Prepend(s, Run(r, d', after))
  {
    assert ([Token(code, d.size)] + after)[1..] == after;
  }

  lemma RunClear(r: Rules, d: Dec, after: seq<Token>)
    requires d.size > 0 && r.end != r.clear < Pow2(d.size)
    ensures Run(r, d, [Token(r.clear, d.size)] + after) == Run(r, FreshDec(r), after)
  {
    assert ([Token(r.clear, d.size)] + after)[1..] == after;
  }

  /** Reading `width` bits where a code of that width was packed. */
  lemma {:induction false} ReadsPacked(bits: seq<bool>, pos: nat, code: nat, width: nat, tail: seq<bool>)
    decreases width
    requires pos <= |bits| && bits[pos..] == LowBits(code, width) + tail && code < Pow2(width)
    ensures ReadCode(bits, pos, width) == code
    ensures pos + width <= |bits| && bits[pos + width..] == tail
  {
    if width > 0 {
      assert bits[pos..][0] == bits[pos] == (code % 2 == 1);
      assert bits[pos + 1..] == bits[pos..][1..] == LowBits(code / 2, width - 1) + tail;
      ReadsPacked(bits, pos + 1, code / 2, width - 1, tail);
    }
  }

  /** Before trailing zeros a code is read right even when read too wide. */
  lemma {:induction false} ReadsLast(bits: seq<bool>, pos: nat, code: nat, width: nat, extra: nat, pad: seq<bool>)
    decreases width
    requires pos <= |bits| && bits[pos..] == LowBits(code, width) + pad && code < Pow2(width) && AllFalse(pad)
    ensures ReadCode(bits, pos, width + extra) == code
    ensures pos + width <= |bits|
  {
    if width > 0 {
      assert bits[pos..][0] == bits[pos] == (code % 2 == 1);
      assert bits[pos + 1..] == bits[pos..][1..] == LowBits(code / 2, width - 1) + pad;
      ReadsLast(bits, pos + 1, code / 2, width - 1, extra, pad);
    } else {
      assert bits[pos..] == pad;
      forall i | pos <= i < |bits| ensures !bits[i] {
        assert bits[i] == bits[pos..][i - pos];
      }
      ReadsZeros(bits, pos, extra);
    }
  }

  lemma {:induction false} ReadsZeros(bits: seq<bool>, pos: nat, n: nat)
    decreases n
    requires forall i :: pos <= i < |bits| ==> !bits[i]
    ensures ReadCode(bits, pos, n) == 0
  {
    if n > 0 {
      ReadsZeros(bits, pos + 1, n - 1);
    }
  }

  // ----------------------------------------------------------- lockstep

  /** The codes of bytes. */
  const BYTES := Rules(256, 257, 258, 9)

  lemma RulesForBytes()
    ensures RulesFor(8) == BYTES && Pow2(WIDEST) == 4096
  {
    Pow2Values();
  }

  ghost predicate DataCode(c: nat, T: seq<seq<byte>>) {
    c < CLEAR || FIRST_FREE <= c < FIRST_FREE + |T|
  }

  /** `T` lists what every code assigned so far stands for. */
  ghost predicate EncValid(e: Enc, T: seq<seq<byte>>) {
    && FIRST_FREE + |T| == e.next <= TABLE_LIMIT
    && MIN_WIDTH <= e.size <= MAX_WIDTH && e.next <= Pow2(e.size)
    && DataCode(e.cur, T)
    && (forall i :: 0 <= i < |T| ==> T[i] != [])
    && (forall k :: k in e.dict ==>
      DataCode(e.dict[k], T) && Str(BYTES, T, e.dict[k]) == Str(BYTES, T, k.0) + [k.1] && DataCode(k.0, T))
  }

  /** The decoder is one entry behind the coder, except right after a Clear. */
  ghost predicate Lockstep(e: Enc, T: seq<seq<byte>>, d: Dec) {
    && EncValid(e, T)
    && d.size == e.size
    && match d.prev
       case None => d == FreshDec(BYTES) && T == [] && e.cur < CLEAR
       case Some(p) =>
         && T != []
         && d.table == T[..|T| - 1]
         && DataCode(p, d.table)
         && T[|T| - 1] == Str(BYTES, T, p) + [Str(BYTES, T, e.cur)[0]]
  }

  /** One data code keeps the two tables in step, whatever comes after it. */
  lemma StepInLockstep(e: Enc, T: seq<seq<byte>>, d: Dec) returns (d': Dec)
    requires Lockstep(e, T, d)
    ensures Step(BYTES, d, e.cur) == Some((d', Str(BYTES, T, e.cur)))
    ensures d'.prev == Some(e.cur) && d'.table == T
    ensures d'.size == (if e.next == Pow2(e.size) && e.size < MAX_WIDTH then e.size + 1 else e.size)
  {
    Pow2Values();
    if d.prev.Some? {
      var p := d.prev.value;
      assert Str(BYTES, d.table, p) == Str(BYTES, T, p) != [];
      if e.cur == FIRST_FREE + |d.table| {
        assert Str(BYTES, T, e.cur)[0] == Str(BYTES, T, p)[0];
      } else {
        assert Str(BYTES, d.table, e.cur) == Str(BYTES, T, e.cur);
      }
      assert T == d.table + [Str(BYTES, T, p) + [Str(BYTES, T, e.cur)[0]]];
    }
    d' := Step(BYTES, d, e.cur).value.0;
  }

  lemma {:induction false} InsertKeepsLockstep(e: Enc, T: seq<seq<byte>>, d: Dec, b: byte)
    requires EncValid(e, T) && e.next < TABLE_LIMIT
    requires d.table == T && d.prev == Some(e.cur)
    requires d.size == Inserted(e, b).size
    ensures Lockstep(Inserted(e, b), T + [Str(BYTES, T, e.cur) + [b]], d)
  {
    Pow2Values();
    var T' := T + [Str(BYTES, T, e.cur) + [b]];
    assert T'[..|T'| - 1] == T;
    forall c: nat | DataCode(c, T) ensures DataCode(c, T') && Str(BYTES, T', c) == Str(BYTES, T, c) {
    }
  }

  lemma ResetKeepsLockstep(b: byte)
    ensures Lockstep(Reset(b), [], FreshDec(BYTES))
  {
    Pow2Values();
  }

  lemma HitKeepsLockstep(e: Enc, T: seq<seq<byte>>, d: Dec, b: byte)
    requires Lockstep(e, T, d) && (e.cur, b) in e.dict
    ensures Lockstep(e.(cur := e.dict[(e.cur, b)]), T, d)
    ensures Str(BYTES, T, e.dict[(e.cur, b)]) == Str(BYTES, T, e.cur) + [b]
  {
    assert Str(BYTES, T, e.dict[(e.cur, b)]) == Str(BYTES, T, e.cur) + [b];
    if d.prev == None {
      assert false;
    }
  }

  lemma FullIsWidest(e: Enc, T: seq<seq<byte>>)
    requires EncValid(e, T) && e.next >= TABLE_LIMIT
    ensures e.size == MAX_WIDTH
  {
    Pow2Values();
  }

  lemma CodesFit(e: Enc, T: seq<seq<byte>>)
    requires EncValid(e, T)
    ensures e.cur < Pow2(e.size) && CLEAR < EOI < Pow2(e.size)
  {
    Pow2Values();
    Pow2Mono(MIN_WIDTH, e.size);
  }

  /** What the coder still writes makes the decoder put out the pending string
      and the rest of the input. */
  lemma {:induction false} RunsToInput(e: Enc, T: seq<seq<byte>>, rest: seq<byte>, d: Dec)
    requires Lockstep(e, T, d)
    ensures Run(BYTES, d, Codes(e, rest)) == Some(Str(BYTES, T, e.cur) + rest)
    decreases |rest|, 1
  {
    if rest != [] && (e.cur, rest[0]) in e.dict {
      var e' := e.(cur := e.dict[(e.cur, rest[0])]);
      HitKeepsLockstep(e, T, d, rest[0]);
      RunsToInput(e', T, rest[1..], d);
      assert Str(BYTES, T, e.cur) + [rest[0]] + rest[1..] == Str(BYTES, T, e.cur) + rest;
    } else {
      var d' := StepInLockstep(e, T, d);
      var after := RunsAfter(e, T, rest, d');
      CodesFit(e, T);
      RunData(BYTES, d, e.cur, d', Str(BYTES, T, e.cur), after);
    }
  }

  /** The same after the data code `e.cur` was read. */
  lemma {:induction false} RunsAfter(e: Enc, T: seq<seq<byte>>, rest: seq<byte>, d': Dec) returns (after: seq<Token>)
    requires EncValid(e, T) && (rest == [] || (e.cur, rest[0]) !in e.dict)
    requires d'.prev == Some(e.cur) && d'.table == T
    requires d'.size == (if e.next == Pow2(e.size) && e.size < MAX_WIDTH then e.size + 1 else e.size)
    ensures Codes(e, rest) == [Token(e.cur, e.size)] + after
    ensures Run(BYTES, d', after) == Some(rest)
    decreases |rest|, 0
  {
    hide Run, Codes, Str, EncValid, Pow2, Step, DataCode, Prepend, Lockstep;
    if rest == [] {
      after := RunsEnd(e, T, d');
    } else {
      var b, more := rest[0], rest[1..];
      assert [b] + more == rest;
      CodesMissed(e, rest);
      if e.next < TABLE_LIMIT {
        InsertKeepsLockstep(e, T, d', b);
        after := Codes(Inserted(e, b), more);
        RunsToInput(Inserted(e, b), T + [Str(BYTES, T, e.cur) + [b]], more, d');
        InsertedString(e, T, b);
      } else {
        FullIsWidest(e, T);
        CodesFit(e, T);
        ResetKeepsLockstep(b);
        RunsToInput(Reset(b), [], more, FreshDec(BYTES));
        ResetString(b);
        RunClear(BYTES, d', Codes(Reset(b), more));
        after := [Token(CLEAR, e.size)] + Codes(Reset(b), more);
      }
    }
  }

  lemma RunsEnd(e: Enc, T: seq<seq<byte>>, d': Dec) returns (after: seq<Token>)
    requires EncValid(e, T)
    requires d'.size == (if e.next == Pow2(e.size) && e.size < MAX_WIDTH then e.size + 1 else e.size)
    ensures Codes(e, []) == [Token(e.cur, e.size)] + after
    ensures Run(BYTES, d', after) == Some([])
  {
    hide EncValid;
    CodesFit(e, T);
    after := [Token(EOI, e.size)];
  }

  lemma CodesMissed(e: Enc, rest: seq<byte>)
    requires rest != [] && (e.cur, rest[0]) !in e.dict
    ensures Codes(e, rest) == [Token(e.cur, e.size)] +
              if e.next < TABLE_LIMIT then Codes(Inserted(e, rest[0]), rest[1..])
              else [Token(CLEAR, e.size)] + Codes(Reset(rest[0]), rest[1..])
  {
    var more := Codes(Reset(rest[0]), rest[1..]);
    assert [Token(e.cur, e.size), Token(CLEAR, e.size)] + more
      == [Token(e.cur, e.size)] + ([Token(CLEAR, e.size)] + more);
  }

  lemma InsertedString(e: Enc, T: seq<seq<byte>>, b: byte)
    ensures Str(BYTES, T + [Str(BYTES, T, e.cur) + [b]], Inserted(e, b).cur) == [b]
  {
  }

  lemma ResetString(b: byte)
    ensures Str(BYTES, [], Reset(b).cur) == [b]
  {
  }

  /** Everything the coder writes for a non-empty list, as bits. */
  function Stream(indices: seq<byte>): seq<bool>
    requires indices != []
  {
    Pack([Token(CLEAR, MIN_WIDTH)] + Codes(Reset(indices[0]), indices[1..]))
  }

  lemma StreamDecodes(indices: seq<byte>, bits: seq<bool>, pad: seq<bool>)
    requires indices != [] && bits == Stream(indices) + pad && AllFalse(pad)
    ensures DecodeFrom(BYTES, FreshDec(BYTES), bits, 0) == Some(indices)
  {
    Pow2Values();
    var ts := Codes(Reset(indices[0]), indices[1..]);
    var all := [Token(CLEAR, MIN_WIDTH)] + ts;
    ResetKeepsLockstep(indices[0]);
    RunsToInput(Reset(indices[0]), [], indices[1..], FreshDec(BYTES));
    assert [indices[0]] + indices[1..] == indices;
    assert all[1..] == ts;
    assert bits[0..] == bits;
    DecodesPacked(BYTES, FreshDec(BYTES), all, bits, 0, pad);
  }

  // --------------------------------------------------- the longest matches

  /** As a reader of the standard sees it: each code stands for the longest
      string there is at the front of what is left, the end comes when nothing
      is left, and a Clear exactly when all 4096 codes are taken and more is to
      come. */
  ghost predicate Thrifty(d: Dec, ts: seq<Token>, input: seq<byte>)
    decreases |ts|
  {
    if ts == [] then false
    else if ts[0].code == 257 then input == []
    else
      match Step(Rules(256, 257, 258, 9), d, ts[0].code)
      case None => false
      case Some((d', s)) =>
        && s <= input
        && (|s| < |input| ==> input[..|s| + 1] !in d'.table)
        && if |ts| > 1 && ts[1].code == 256 then
             |s| < |input| && |d'.table| == 4096 - 258 && Thrifty(Dec([], 9, None), ts[2..], input[|s|..])
           else (|s| < |input| ==> |d'.table| < 4096 - 258) && Thrifty(d', ts[1..], input[|s|..])
  }

  /** Another code's string with a byte behind it. */
  ghost predicate Built(t: seq<byte>, T: seq<seq<byte>>) {
    |t| >= 2 && (|t| == 2 || t[..|t| - 1] in T)
  }

  /** Entries are built of others and all different. */
  ghost predicate Shape(T: seq<seq<byte>>) {
    && (forall i :: 0 <= i < |T| ==> Built(T[i], T))
    && (forall i, j :: 0 <= i < j < |T| ==> T[i] != T[j])
  }

  /** The coder knows every entry by its key. */
  ghost predicate Complete(e: Enc, T: seq<seq<byte>>) {
    && Shape(T)
    && forall c: nat, b: byte :: DataCode(c, T) && Str(BYTES, T, c) + [b] in T ==> (c, b) in e.dict
  }

  lemma StrApart(T: seq<seq<byte>>, c: nat, c': nat)
    requires Shape(T) && DataCode(c, T) && DataCode(c', T) && Str(BYTES, T, c) == Str(BYTES, T, c')
    ensures c == c'
  {
  }

  lemma {:induction false} Thrifts(e: Enc, T: seq<seq<byte>>, rest: seq<byte>, d: Dec)
    requires Lockstep(e, T, d) && Complete(e, T)
    ensures Thrifty(d, Codes(e, rest), Str(BYTES, T, e.cur) + rest)
    decreases |rest|
  {
    hide Step, EncValid, DataCode, Complete, Shape, Lockstep, Str, Thrifty, Codes;
    assert EncValid(e, T) by { LockstepValid(e, T, d); }
    if rest != [] && (e.cur, rest[0]) in e.dict {
      HitKeepsLockstep(e, T, d, rest[0]);
      var e' := e.(cur := e.dict[(e.cur, rest[0])]);
      assert Complete(e', T) by { CompleteHit(e, T, e'); }
      Thrifts(e', T, rest[1..], d);
      CodesHit(e, rest);
      assert Str(BYTES, T, e.cur) + [rest[0]] + rest[1..] == Str(BYTES, T, e.cur) + rest;
    } else {
      var d' := StepInLockstep(e, T, d);
      if rest == [] {
        ThriftyEnd(e, T, d, d');
      } else {
        var b, more := rest[0], rest[1..];
        CodesMissed(e, rest);
        NoLonger(e, T, b);
        if e.next < TABLE_LIMIT {
          InsertKeepsLockstep(e, T, d', b);
          CompleteInsert(e, T, b);
          Thrifts(Inserted(e, b), T + [Str(BYTES, T, e.cur) + [b]], more, d');
          InsertedString(e, T, b);
          ThriftyOn(e, T, d, d', rest);
        } else {
          ResetKeepsLockstep(b);
          assert Complete(Reset(b), []) by { CompleteReset(b); }
          Thrifts(Reset(b), [], more, FreshDec(BYTES));
          ResetString(b);
          ThriftyClear(e, T, d, d', rest);
        }
      }
    }
  }

  lemma LockstepValid(e: Enc, T: seq<seq<byte>>, d: Dec)
    requires Lockstep(e, T, d)
    ensures EncValid(e, T)
  {
  }

  lemma CodesHit(e: Enc, rest: seq<byte>)
    requires rest != [] && (e.cur, rest[0]) in e.dict
    ensures Codes(e, rest) == Codes(e.(cur := e.dict[(e.cur, rest[0])]), rest[1..])
  {
  }

  lemma CompleteHit(e: Enc, T: seq<seq<byte>>, e': Enc)
    requires Complete(e, T) && e'.dict == e.dict
    ensures Complete(e', T)
  {
  }

  lemma CompleteReset(b: byte)
    ensures Complete(Reset(b), [])
  {
  }

  /** What the coder does not know by its key is not in the table. */
  lemma NoLonger(e: Enc, T: seq<seq<byte>>, b: byte)
    requires EncValid(e, T) && Complete(e, T) && (e.cur, b) !in e.dict
    ensures Str(BYTES, T, e.cur) + [b] !in T
  {
  }

  lemma CompleteInsert(e: Enc, T: seq<seq<byte>>, b: byte)
    requires EncValid(e, T) && Complete(e, T) && (e.cur, b) !in e.dict
    ensures Complete(Inserted(e, b), T + [Str(BYTES, T, e.cur) + [b]])
  {
    hide Str;
    var s := Str(BYTES, T, e.cur) + [b];
    var T', e' := T + [s], Inserted(e, b);
    NoLonger(e, T, b);
    assert Shape(T') by { ShapeGrows(e, T, b); }
    forall c: nat, x: byte | DataCode(c, T') && Str(BYTES, T', c) + [x] in T' ensures (c, x) in e'.dict {
      KnownByKey(e, T, b, c, x);
    }
  }

  lemma ShapeGrows(e: Enc, T: seq<seq<byte>>, b: byte)
    requires EncValid(e, T) && Shape(T) && Str(BYTES, T, e.cur) + [b] !in T
    ensures Shape(T + [Str(BYTES, T, e.cur) + [b]])
  {
    hide Str;
    var r := Str(BYTES, T, e.cur);
    StrInTable(T, e.cur);
    assert (r + [b])[..|r|] == r;
    ShapeAppend(T, r, r + [b]);
  }

  lemma StrInTable(T: seq<seq<byte>>, c: nat)
    requires DataCode(c, T)
    ensures |Str(BYTES, T, c)| == 1 || Str(BYTES, T, c) in T
  {
  }

  lemma ShapeAppend(T: seq<seq<byte>>, r: seq<byte>, s: seq<byte>)
    requires Shape(T) && s !in T && |s| == |r| + 1 && s[..|r|] == r && (|r| == 1 || (|r| > 1 && r in T))
    ensures Shape(T + [s])
  {
    hide Built;
    var T' := T + [s];
    assert Built(s, T) by { BuiltOf(r, s, T); }
    forall i | 0 <= i < |T'| ensures Built(T'[i], T') {
      assert T'[i] == if i < |T| then T[i] else s;
      BuiltMore(T'[i], T, s);
    }
    forall i, j | 0 <= i < j < |T'| ensures T'[i] != T'[j] {
      assert T'[i] == T[i] && T[i] in T;
    }
  }

  lemma BuiltOf(r: seq<byte>, s: seq<byte>, T: seq<seq<byte>>)
    requires |s| == |r| + 1 && s[..|r|] == r && (|r| == 1 || (|r| > 1 && r in T))
    ensures Built(s, T)
  {
  }

  lemma BuiltMore(t: seq<byte>, T: seq<seq<byte>>, s: seq<byte>)
    requires Built(t, T)
    ensures Built(t, T + [s])
  {
  }

  lemma KnownByKey(e: Enc, T: seq<seq<byte>>, b: byte, c: nat, x: byte)
    requires EncValid(e, T) && Complete(e, T) && Str(BYTES, T, e.cur) + [b] !in T
    requires var T' := T + [Str(BYTES, T, e.cur) + [b]]; DataCode(c, T') && Str(BYTES, T', c) + [x] in T'
    ensures (c, x) in Inserted(e, b).dict
  {
    var s := Str(BYTES, T, e.cur) + [b];
    var T' := T + [s];
    var t := Str(BYTES, T', c) + [x];
    assert t[..|t| - 1] == Str(BYTES, T', c) && s[..|s| - 1] == Str(BYTES, T, e.cur);
    if DataCode(c, T) {
      assert Str(BYTES, T', c) == Str(BYTES, T, c);
      if t == s {
        assert s[|s| - 1] == b && t[|t| - 1] == x;
        StrApart(T, c, e.cur);
      } else {
        assert t in T;
      }
    } else {
      assert false;
    }
  }

  lemma ThriftyEnd(e: Enc, T: seq<seq<byte>>, d: Dec, d': Dec)
    requires Step(BYTES, d, e.cur) == Some((d', Str(BYTES, T, e.cur))) && EncValid(e, T)
    ensures Thrifty(d, Codes(e, []), Str(BYTES, T, e.cur) + [])
  {
    hide Step, Str;
    var ts, s := Codes(e, []), Str(BYTES, T, e.cur);
    assert ts[1..] == [Token(EOI, e.size)] && (s + [])[|s|..] == [];
    assert Thrifty(d', ts[1..], []);
  }

  lemma ThriftyOn(e: Enc, T: seq<seq<byte>>, d: Dec, d': Dec, rest: seq<byte>)
    requires rest != [] && Step(BYTES, d, e.cur) == Some((d', Str(BYTES, T, e.cur))) && d'.table == T
    requires EncValid(e, T) && e.next < TABLE_LIMIT && Str(BYTES, T, e.cur) + [rest[0]] !in T
    requires Codes(e, rest) == [Token(e.cur, e.size)] + Codes(Inserted(e, rest[0]), rest[1..])
    requires Thrifty(d', Codes(Inserted(e, rest[0]), rest[1..]), [rest[0]] + rest[1..])
    ensures Thrifty(d, Codes(e, rest), Str(BYTES, T, e.cur) + rest)
  {
    hide Step, Str, Inserted, Codes;
    var ts, s := Codes(e, rest), Str(BYTES, T, e.cur);
    assert ts[1..] == Codes(Inserted(e, rest[0]), rest[1..]);
    assert (s + rest)[..|s| + 1] == s + [rest[0]] && (s + rest)[|s|..] == rest == [rest[0]] + rest[1..];
    InsertedValid(e, T, rest[0]);
    FirstIsData(Inserted(e, rest[0]), T + [s + [rest[0]]], rest[1..]);
  }

  lemma InsertedValid(e: Enc, T: seq<seq<byte>>, b: byte)
    requires EncValid(e, T) && e.next < TABLE_LIMIT
    ensures EncValid(Inserted(e, b), T + [Str(BYTES, T, e.cur) + [b]])
  {
    hide Str;
    var d := Dec(T, Inserted(e, b).size, Some(e.cur));
    InsertKeepsLockstep(e, T, d, b);
  }

  lemma {:induction false} FirstIsData(e: Enc, T: seq<seq<byte>>, rest: seq<byte>)
    requires EncValid(e, T)
    ensures Codes(e, rest) != [] && Codes(e, rest)[0].code != 256
    decreases |rest|
  {
    if rest != [] && (e.cur, rest[0]) in e.dict {
      FirstIsData(e.(cur := e.dict[(e.cur, rest[0])]), T, rest[1..]);
    }
  }

  lemma ThriftyClear(e: Enc, T: seq<seq<byte>>, d: Dec, d': Dec, rest: seq<byte>)
    requires rest != [] && Step(BYTES, d, e.cur) == Some((d', Str(BYTES, T, e.cur))) && d'.table == T
    requires EncValid(e, T) && e.next >= TABLE_LIMIT && Str(BYTES, T, e.cur) + [rest[0]] !in T
    requires Codes(e, rest) == [Token(e.cur, e.size)] + ([Token(CLEAR, e.size)] + Codes(Reset(rest[0]), rest[1..]))
    requires Thrifty(FreshDec(BYTES), Codes(Reset(rest[0]), rest[1..]), [rest[0]] + rest[1..])
    ensures Thrifty(d, Codes(e, rest), Str(BYTES, T, e.cur) + rest)
  {
    hide Step, Str, Reset, Codes;
    var ts, s := Codes(e, rest), Str(BYTES, T, e.cur);
    assert ts[2..] == Codes(Reset(rest[0]), rest[1..]);
    assert (s + rest)[..|s| + 1] == s + [rest[0]] && (s + rest)[|s|..] == rest == [rest[0]] + rest[1..];
  }

  /** What is written behind the first Clear. */
  lemma StreamIsThrifty(indices: seq<byte>)
    requires indices != []
    ensures exists ts :: Stream(indices) == Pack([Token(256, 9)] + ts) && Thrifty(Dec([], 9, None), ts, indices)
  {
    hide Pack, Codes, Thrifty, Lockstep, Complete;
    var b := indices[0];
    var ts := Codes(Reset(b), indices[1..]);
    ResetKeepsLockstep(b);
    CompleteReset(b);
    Thrifts(Reset(b), [], indices[1..], FreshDec(BYTES));
    ResetString(b);
    assert [b] + indices[1..] == indices;
  }

  ghost predicate Sized(e: Enc) {
    && e.cur < e.next <= TABLE_LIMIT && FIRST_FREE <= e.next <= Pow2(e.size)
    && MIN_WIDTH <= e.size <= MAX_WIDTH
    && forall k :: k in e.dict ==> e.dict[k] < e.next
  }

  lemma SizedCodes(e: Enc)
    requires Sized(e)
    ensures e.cur < Pow2(e.size) && CLEAR < EOI < Pow2(e.size)
  {
    Pow2Values();
    Pow2Mono(MIN_WIDTH, e.size);
  }

  lemma SizedAfter(e: Enc, b: byte)
    requires Sized(e)
    ensures Sized(Reset(b))
    ensures e.next < TABLE_LIMIT ==> Sized(Inserted(e, b))
  {
    Pow2Values();
  }

  /** The bits still owed from state `e` on input `rest`. */
  function Owed(e: Enc, rest: seq<byte>): seq<bool> {
    Pack(Codes(e, rest))
  }

  lemma OwedHit(e: Enc, rest: seq<byte>)
    requires rest != [] && (e.cur, rest[0]) in e.dict
    ensures Owed(e, rest) == Owed(e.(cur := e.dict[(e.cur, rest[0])]), rest[1..])
  {
  }

  lemma OwedStep(e: Enc, rest: seq<byte>)
    requires rest != [] && (e.cur, rest[0]) !in e.dict
    ensures Owed(e, rest) == LowBits(e.cur, e.size) +
              if e.next < TABLE_LIMIT then Owed(Inserted(e, rest[0]), rest[1..])
              else LowBits(CLEAR, e.size) + Owed(Reset(rest[0]), rest[1..])
  {
    var t, clear := Token(e.cur, e.size), Token(CLEAR, e.size);
    if e.next < TABLE_LIMIT {
      PackCons(t, Codes(Inserted(e, rest[0]), rest[1..]));
    } else {
      var more := Codes(Reset(rest[0]), rest[1..]);
      PackCons(clear, more);
      PackCons(t, [clear] + more);
      assert [t, clear] + more == [t] + ([clear] + more);
    }
  }

  /** What the miss branch must emit so that nothing of the stream is lost. */
  lemma Missed(e: Enc, rest: seq<byte>, written: seq<bool>)
    requires Sized(e) && rest != [] && (e.cur, rest[0]) !in e.dict
    ensures e.cur < Pow2(e.size) && CLEAR < Pow2(e.size)
    ensures e.next < TABLE_LIMIT ==>
              && Sized(Inserted(e, rest[0]))
              && written + Owed(e, rest)
                 == written + LowBits(e.cur, e.size) + Owed(Inserted(e, rest[0]), rest[1..])
    ensures e.next >= TABLE_LIMIT ==>
              && Sized(Reset(rest[0]))
              && written + Owed(e, rest)
                 == written + LowBits(e.cur, e.size) + LowBits(CLEAR, e.size) + Owed(Reset(rest[0]), rest[1..])
  {
    SizedCodes(e);
    SizedAfter(e, rest[0]);
    OwedStep(e, rest);
    var code, clear := LowBits(e.cur, e.size), LowBits(CLEAR, e.size);
    if e.next < TABLE_LIMIT {
      Regroup(written, code, Owed(Inserted(e, rest[0]), rest[1..]));
    } else {
      var next := Owed(Reset(rest[0]), rest[1..]);
      Regroup(written, code, clear + next);
      Regroup(written + code, clear, next);
    }
  }

  lemma OwedEnd(e: Enc)
    ensures Owed(e, []) == LowBits(e.cur, e.size) + LowBits(EOI, e.size)
  {
    PackCons(Token(EOI, e.size), []);
    PackCons(Token(e.cur, e.size), [Token(EOI, e.size)]);
    assert [Token(e.cur, e.size)] + [Token(EOI, e.size)] == Codes(e, []);
  }

  lemma Ended(e: Enc, written: seq<bool>)
    requires Sized(e)
    ensures e.cur < Pow2(e.size) && EOI < Pow2(e.size)
    ensures written + Owed(e, []) == written + LowBits(e.cur, e.size) + LowBits(EOI, e.size)
  {
    SizedCodes(e);
    OwedEnd(e);
    Regroup(written, LowBits(e.cur, e.size), LowBits(EOI, e.size));
  }

  lemma Started(indices: seq<byte>)
    requires indices != []
    ensures Sized(Reset(indices[0])) && CLEAR < Pow2(MIN_WIDTH)
    ensures Stream(indices) == LowBits(CLEAR, MIN_WIDTH) + Owed(Reset(indices[0]), indices[1..])
  {
    Pow2Values();
    PackCons(Token(CLEAR, MIN_WIDTH), Codes(Reset(indices[0]), indices[1..]));
  }

  /** The coder: what it writes is exactly `Stream`, zero-padded to a byte, and
      the decoder reads the input back from it. */
  method Lzw(indices: seq<byte>) returns (out: seq<byte>)
    requires indices != []
    ensures Decode(8, out) == Some(indices)
    ensures Stream(indices) <= BitsOf(out) && |BitsOf(out)| < |Stream(indices)| + 8
  {
    hide BitsOf, LowBits, Owed, Stream, Pow2, Str, Pack;
    var w := new BitWriter();
    var dict: map<(nat, byte), nat> := map[];
    var next: nat, size: nat := FIRST_FREE, MIN_WIDTH;
    ghost var e := Reset(indices[0]);
    Started(indices);
    w.Emit(CLEAR, size);
    var cur: nat := indices[0];
    var i := 1;
    while i < |indices|
      invariant 1 <= i <= |indices|
      invariant w.Valid() && fresh(w)
      invariant e == Enc(dict, next, size, cur) && Sized(e)
      invariant w.Bits() + Owed(e, indices[i..]) == Stream(indices)
    {
      var b := indices[i];
      ghost var rest := indices[i..];
      assert rest[0] == b && rest[1..] == indices[i + 1..];
      i := i + 1;
      if (cur, b) in dict {
        OwedHit(e, rest);
        cur := dict[(cur, b)];
        e := e.(cur := cur);
        continue;
      }
      Missed(e, rest, w.Bits());
      w.Emit(cur, size);
      if next < TABLE_LIMIT {
        dict := dict[(cur, b) := next];
        if next == Pow2(size) && size < MAX_WIDTH {
          size := size + 1;
        }
        next := next + 1;
        e := Inserted(e, b);
      } else {
        w.Emit(CLEAR, size);
        dict := map[];
        next := FIRST_FREE;
        size := MIN_WIDTH;
        e := Reset(b);
      }
      cur := b;
    }
    assert indices[i..] == [];
    Ended(e, w.Bits());
    w.Emit(cur, size);
    w.Emit(EOI, size);
    ghost var pad := w.Flush();
    out := w.out;
    StreamDecodes(indices, BitsOf(out), pad);
    RulesForBytes();
  }
}
