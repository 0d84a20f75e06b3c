/** The LZ-String URI-component decoder (python-deprecated/utils/lzstring.py).

    The decoder is modelled twice: as a class `BitReader` and a method `DecompressUri` with the
    source's own loops, and as the function `Decompress`, which the method is proved against.
    The encoder the decoder has to invert, `compressToEncodedURIComponent` of the JavaScript
    library lz-string, is written out as the function `Compress`; `RoundTrip` is the main result. */
module LzString {
  import opened Wrappers

  /** One UTF-16 code unit: what `chr` is applied to, at most 16 bits wide. */
  type CodeUnit = u: int | 0 <= u < 0x1_0000
  type Text = seq<CodeUnit>

  /** The value of the call: a text, or the ValueError that every exception is turned into. */
  datatype Decoded = Ok(text: Text) | Invalid

  // ---------------------------------------------------------------- the alphabet

  /** Position of a character in the 65-character URI-safe alphabet. */
  function BaseValue(c: char): (v: Option<nat>)
    ensures v.Some? ==> v.value < 65
  {
    if 'A' <= c <= 'Z' then Some(c as nat - 'A' as nat)
    else if 'a' <= c <= 'z' then Some(c as nat - 'a' as nat + 26)
    else if '0' <= c <= '9' then Some(c as nat - '0' as nat + 52)
    else if c == '+' then Some(62)
    else if c == '-' then Some(63)
    else if c == '$' then Some(64)
    else None
  }

  function CharOf(v: nat): (c: char)
    requires v < 64
    ensures BaseValue(c) == Some(v)
  {
    if v < 26 then v as char + 'A'
    else if v < 52 then (v - 26) as char + 'a'
    else if v < 62 then (v - 52) as char + '0'
    else if v == 62 then '+'
    else '-'
  }

  const CAPITALS := "ABCDEFGHIJKLMNOPQRSTUVWXYZ"
  const SMALL := "abcdefghijklmnopqrstuvwxyz"
  const URI_SAFE := CAPITALS + SMALL + "0123456789+-$"

  /** That is its place in the alphabet as it is written down. */
  lemma AlphabetPlace(c: char, v: nat)
    ensures BaseValue(c) == Some(v) <==> v < |URI_SAFE| && URI_SAFE[v] == c
  {
    if v < |URI_SAFE| { PlaceIsValue(v); }
    if BaseValue(c) == Some(v) {
      PlaceIsValue(v);
      OneCharacter(c, URI_SAFE[v]);
    }
  }

  lemma OneCharacter(c: char, d: char)
    requires BaseValue(c).Some? && BaseValue(c) == BaseValue(d)
    ensures c == d
  {}

  lemma PlaceIsValue(v: nat)
    requires v < 65
    ensures |URI_SAFE| == 65 && BaseValue(URI_SAFE[v]) == Some(v)
  {
    if v < 26 { CapitalPlace(v); } else if v < 52 { SmallPlace(v - 26); }
  }

  lemma CapitalPlace(v: nat)
    requires v < 26
    ensures CAPITALS[v] == 'A' + v as char
  {}

  lemma SmallPlace(v: nat)
    requires v < 26
    ensures SMALL[v] == 'a' + v as char
  {}

  function Pow2(n: nat): (p: nat)
    ensures p >= 1
  {
    if n == 0 then 1 else 2 * Pow2(n - 1)
  }

  // ---------------------------------------------------------------- the bit stream

  /** The mask that selects bit `k` of a 6-bit character, most significant first. */
  function Mask(k: nat): (m: nat)
    requires k < 6
    ensures m > 0
  {
    if k == 0 then 32 else if k == 1 then 16 else if k == 2 then 8 else if k == 3 then 4 else if k == 4 then 2 else 1
  }

  /** Which bit is next: bit `bit` of the character at `index`. */
  datatype Cursor = Cursor(index: nat, bit: nat) {
    function Next(): Cursor {
      if bit < 5 then Cursor(index, bit + 1) else Cursor(index + 1, 0)
    }

    /** Number of bits read so far. */
    function Count(): nat { 6 * index + bit }
  }

  /** The cursor is on a bit of a character that was looked up without a KeyError, or past the end. */
  predicate Loaded(input: string, at: Cursor) {
    at.bit < 6 && (at.index < |input| ==> BaseValue(input[at.index]).Some?)
  }

  /** What `data_val` holds: zero once the input is used up. */
  function CharValue(input: string, at: Cursor): nat
    requires Loaded(input, at)
  {
    if at.index < |input| then BaseValue(input[at.index]).value else 0
  }

  function InputBit(input: string, at: Cursor): bool
    requires Loaded(input, at)
  {
    CharValue(input, at) / Mask(at.bit) % 2 == 1
  }

  function BitValue(b: bool): nat { if b then 1 else 0 }

  /** A number read from the input, and the cursor behind it. */
  datatype Number = Number(value: nat, after: Cursor)

  /** `n` bits, least significant first; None when a character that has to be fetched on the way
      is not in the alphabet. */
  function Read(input: string, at: Cursor, n: nat): (r: Option<Number>)
    requires Loaded(input, at)
    ensures r.Some? ==> r.value.value < Pow2(n) && Loaded(input, r.value.after)
    ensures r.Some? ==> r.value.after.Count() == at.Count() + n
    decreases n
  {
    if n == 0 then Some(Number(0, at))
    else if !Loaded(input, at.Next()) then None
    else match Read(input, at.Next(), n - 1)
      case None => None
      case Some(high) => Some(Number(BitValue(InputBit(input, at)) + 2 * high.value, high.after))
  }

  /** It fails exactly if a character is not in the alphabet to which the cursor moves on the way. */
  lemma {:induction false} ReadFailsIff(input: string, at: Cursor, n: nat)
    requires Loaded(input, at)
    ensures Read(input, at, n).None?
      <==> exists i :: at.index < i <= (at.Count() + n) / 6 && i < |input| && BaseValue(input[i]).None?
    decreases n
  {
    hide BaseValue, InputBit, Pow2;
    if n > 0 {
      var next := at.Next();
      assert next.Count() == at.Count() + 1;
      if Loaded(input, next) {
        ReadFailsIff(input, next, n - 1);
        assert next.index < |input| ==> BaseValue(input[next.index]).Some?;
      } else {
        assert at.index < next.index <= (at.Count() + n) / 6;
      }
    }
  }

  // ---------------------------------------------------------------- code widths

  /** `num_bits` and `enlarge_in`, which encoder and decoder have to keep in step. */
  datatype Widths = Widths(bits: nat, left: nat)

  /** Uses one dictionary slot up; the codes get one bit wider when none is left. */
  function Spend(x: Widths): Widths
    requires x.left >= 1
  {
    if x.left == 1 then Widths(x.bits + 1, Pow2(x.bits)) else Widths(x.bits, x.left - 1)
  }

  // ---------------------------------------------------------------- the decoder

  /** The decoder's loop state; `dict[i]` is what the source's `dictionary[i]` holds. */
  datatype Decoder = Decoder(dict: seq<Text>, w: Text, widths: Widths, out: Text)

  /** The arithmetic width invariant and the shape of the dictionary at every loop head. */
  ghost predicate DecoderOk(d: Decoder) {
    && |d.dict| + d.widths.left == Pow2(d.widths.bits)
    && d.widths.left >= 1
    && |d.dict| >= 4
    && d.widths.bits >= 3
    && d.w != []
    && forall i :: 3 <= i < |d.dict| ==> d.dict[i] != []
  }

  /** Codes 0 and 1: a new single-unit entry. */
  function AddUnit(d: Decoder, u: CodeUnit): (r: Decoder)
    requires DecoderOk(d)
    ensures DecoderOk(r)
  {
    d.(dict := d.dict + [[u]], widths := Spend(d.widths))
  }

  /** The entry a code stands for, the code one past the dictionary included. */
  function Lookup(d: Decoder, code: nat): (e: Option<Text>)
    requires DecoderOk(d)
    ensures code >= 3 && e.Some? ==> e.value != []
  {
    if code < |d.dict| then Some(d.dict[code])
    else if code == |d.dict| then Some(d.w + [d.w[0]])
    else None
  }

  /** Output `entry` and learn the previous word extended by its first unit. */
  function Advance(d: Decoder, entry: Text): (r: Decoder)
    requires DecoderOk(d) && entry != []
    ensures DecoderOk(r)
  {
    Decoder(d.dict + [d.w + [entry[0]]], entry, Spend(d.widths), d.out + entry)
  }

  function InitialDecoder(u: CodeUnit): (d: Decoder)
    ensures DecoderOk(d)
  {
    assert Pow2(3) == 8 by { assert Pow2(0) == 1; assert Pow2(1) == 2; assert Pow2(2) == 4; }
    Decoder([[], [], [], [u]], [u], Widths(3, 4), [u])
  }

  /** The main loop from one loop head on. The bits left in the input bound its length. */
  function DecodeFrom(input: string, at: Cursor, d: Decoder): Decoded
    requires Loaded(input, at) && DecoderOk(d)
    decreases 6 * |input| - at.Count()
  {
    hide Pow2, InputBit, CharValue, Mask;
    if at.index >= |input| then Ok([])
    else match Read(input, at, d.widths.bits)
      case None => Invalid
      case Some(code) =>
        if code.value == 2 then Ok(d.out)
        else if code.value < 2 then
          match ReadUnit(input, code.after, code.value)
          case None => Invalid
          case Some(unit) => DecodeFrom(input, unit.after, Advance(AddUnit(d, unit.value), [unit.value]))
        else
          match Lookup(d, code.value)
          case None => Ok([])
          case Some(entry) => DecodeFrom(input, code.after, Advance(d, entry))
  }

  /** Width of the unit announced by code 0 or 1. */
  function UnitSize(code: nat): nat { if code == 0 then 8 else 16 }

  function ReadUnit(input: string, at: Cursor, code: nat): (r: Option<Number>)
    requires Loaded(input, at)
    ensures r.Some? ==> r.value.value < 0x1_0000 && Loaded(input, r.value.after)
    ensures r.Some? ==> r.value.after.Count() > at.Count()
  {
    UnitFits();
    Read(input, at, UnitSize(code))
  }

  lemma UnitFits()
    ensures Pow2(8) == 0x100 && Pow2(16) == 0x1_0000
  {
    assert Pow2(8) == 0x100 by { assert Pow2(4) == 16; }
    assert Pow2(16) == 0x1_0000 by { assert Pow2(12) == 0x1000; }
  }

  /** A loop head: where the input is read on, and what is known. */
  datatype Head = Head(at: Cursor, d: Decoder)

  ghost predicate HeadOk(input: string, h: Head) { Loaded(input, h.at) && DecoderOk(h.d) }

  /** The next loop head, if another word is read. */
  ghost function NextHead(input: string, h: Head): (r: Option<Head>)
    requires HeadOk(input, h)
    ensures r.Some? ==> HeadOk(input, r.value) && r.value.at.Count() > h.at.Count() && h.at.Count() < 6 * |input|
  {
    hide Pow2, InputBit, CharValue, Mask;
    var code := Read(input, h.at, h.d.widths.bits);
    if h.at.index >= |input| || code.None? || code.value.value == 2 then None
    else if code.value.value < 2 then
      match ReadUnit(input, code.value.after, code.value.value)
      case None => None
      case Some(unit) => Some(Head(unit.after, Advance(AddUnit(h.d, unit.value), [unit.value])))
    else
      match Lookup(h.d, code.value.value)
      case None => None
      case Some(entry) => Some(Head(code.value.after, Advance(h.d, entry)))
  }

  /** The loop head after `n` words. */
  ghost function HeadAfter(input: string, h: Head, n: nat): (r: Option<Head>)
    requires HeadOk(input, h)
    ensures r.Some? ==> HeadOk(input, r.value)
    decreases n
  {
    hide NextHead, HeadOk;
    if n == 0 then Some(h)
    else match NextHead(input, h)
      case None => None
      case Some(next) => HeadAfter(input, next, n - 1)
  }

  /** The end mark is read there, from what is left of the input. */
  ghost predicate EndMark(input: string, h: Head)
    requires HeadOk(input, h)
  {
    && h.at.index < |input| && Read(input, h.at, h.d.widths.bits).Some?
    && Read(input, h.at, h.d.widths.bits).value.value == 2
  }

  /** A number cannot be read there, or the unit it announces: a character is not in the alphabet. */
  ghost predicate BreaksAt(input: string, h: Head)
    requires HeadOk(input, h)
  {
    h.at.index < |input| &&
    match Read(input, h.at, h.d.widths.bits)
    case None => true
    case Some(code) => code.value < 2 && Read(input, code.after, UnitSize(code.value)).None?
  }

  lemma DecodeStep(input: string, h: Head)
    requires HeadOk(input, h)
    ensures EndMark(input, h) ==> DecodeFrom(input, h.at, h.d) == Ok(h.d.out) && !BreaksAt(input, h)
    ensures !EndMark(input, h) ==>
      match NextHead(input, h)
      case None => DecodeFrom(input, h.at, h.d) == if BreaksAt(input, h) then Invalid else Ok([])
      case Some(next) => DecodeFrom(input, h.at, h.d) == DecodeFrom(input, next.at, next.d) && !BreaksAt(input, h)
    ensures EndMark(input, h) ==> NextHead(input, h).None?
  {
    hide Pow2, InputBit, CharValue, Mask, Read, DecoderOk;
  }

  /** After `n` words it breaks. */
  ghost predicate BreaksAfter(input: string, h: Head, n: nat)
    requires HeadOk(input, h)
  {
    HeadAfter(input, h, n).Some? && BreaksAt(input, HeadAfter(input, h, n).value)
  }

  lemma BreaksLater(input: string, h: Head, n: nat)
    requires HeadOk(input, h)
    ensures BreaksAfter(input, h, 0) == BreaksAt(input, h)
    ensures n > 0 ==>
      BreaksAfter(input, h, n) == (NextHead(input, h).Some? && BreaksAfter(input, NextHead(input, h).value, n - 1))
  {
    hide NextHead, HeadOk, BreaksAt;
  }

  /** Decoding fails only on a character that is not in the alphabet, and always on one that is reached. */
  lemma {:induction false} DecodingFailsIff(input: string, h: Head)
    requires HeadOk(input, h)
    ensures DecodeFrom(input, h.at, h.d) == Invalid <==> exists n: nat :: BreaksAfter(input, h, n)
    decreases 6 * |input| - h.at.Count()
  {
    hide DecodeFrom, NextHead, EndMark, HeadOk, BreaksAt, BreaksAfter;
    HeadMeans(input, h);
    DecodeStep(input, h);
    BreaksLater(input, h, 0);
    if NextHead(input, h).None? {
      forall n: nat | n > 0 ensures !BreaksAfter(input, h, n) { BreaksLater(input, h, n); }
      assert DecodeFrom(input, h.at, h.d) == Invalid <==> BreaksAfter(input, h, 0);
    } else {
      var next := NextHead(input, h).value;
      HeadMeans(input, next);
      DecodingFailsIff(input, next);
      forall n: nat ensures BreaksAfter(input, h, n + 1) == BreaksAfter(input, next, n) { BreaksLater(input, h, n + 1); }
      if n: nat :| BreaksAfter(input, next, n) { assert BreaksAfter(input, h, n + 1); }
      if n: nat :| BreaksAfter(input, h, n) { assert BreaksAfter(input, next, n - 1); }
    }
  }

  lemma HeadMeans(input: string, h: Head)
    requires HeadOk(input, h)
    ensures Loaded(input, h.at) && DecoderOk(h.d)
  {}

  /** The text is never a part of one: it is all that was decoded when the end mark was read, and without an end mark, the
      input cut off or a code unknown, it is empty. */
  lemma {:induction false} TextIsMarked(input: string, h: Head) returns (n: nat)
    requires HeadOk(input, h) && DecodeFrom(input, h.at, h.d).Ok? && DecodeFrom(input, h.at, h.d).text != []
    ensures HeadAfter(input, h, n).Some?
    ensures var last := HeadAfter(input, h, n).value;
      EndMark(input, last) && DecodeFrom(input, h.at, h.d).text == last.d.out
    decreases 6 * |input| - h.at.Count()
  {
    hide DecodeFrom, NextHead, EndMark, HeadOk;
    DecodeStep(input, h);
    if EndMark(input, h) { return 0; }
    var next := NextHead(input, h).value;
    n := TextIsMarked(input, next);
    n := n + 1;
  }

  function DecodeStart(input: string): Decoded
    requires input != []
  {
    if BaseValue(input[0]).None? then Invalid
    else match Read(input, Cursor(0, 0), 2)
      case None => Invalid
      case Some(code) =>
        if code.value == 2 then Ok([])
        else if code.value > 2 then Invalid
        else
          match ReadUnit(input, code.after, code.value)
          case None => Invalid
          case Some(unit) => DecodeFrom(input, unit.after, InitialDecoder(unit.value))
  }

  /** The first character alone tells when there is nothing to decode, and when the text is not one of lz-string. */
  lemma FirstCharacter(input: string)
    requires input != []
    ensures BaseValue(input[0]).None? ==> DecodeStart(input) == Invalid
    ensures BaseValue(input[0]).Some? ==>
      var v := BaseValue(input[0]).value;
      && (16 <= v < 32 ==> DecodeStart(input) == Ok([]))
      && (48 <= v < 64 ==> DecodeStart(input) == Invalid)
  {
    hide BaseValue, Read, ReadUnit, DecodeFrom, Pow2, InputBit, BitValue;
    if BaseValue(input[0]).Some? {
      FirstCode(input);
      FirstBits(input);
      TwoBits(BaseValue(input[0]).value);
    }
  }

  lemma TwoBits(v: nat)
    ensures 16 <= v < 32 ==> v / 32 % 2 + 2 * (v / 16 % 2) == 2
    ensures 48 <= v < 64 ==> v / 32 % 2 + 2 * (v / 16 % 2) == 3
  {}

  lemma FirstCode(input: string)
    requires input != [] && BaseValue(input[0]).Some?
    ensures var (x, y) := (BitValue(InputBit(input, Cursor(0, 0))), BitValue(InputBit(input, Cursor(0, 1))));
      Read(input, Cursor(0, 0), 2) == Some(Number(x + 2 * y, Cursor(0, 2)))
  {
    hide BaseValue, Pow2, InputBit, BitValue;
    assert Read(input, Cursor(0, 2), 0) == Some(Number(0, Cursor(0, 2)));
    assert Read(input, Cursor(0, 1), 1) == Some(Number(BitValue(InputBit(input, Cursor(0, 1))), Cursor(0, 2)));
  }

  lemma FirstBits(input: string)
    requires input != [] && BaseValue(input[0]).Some?
    ensures var v := BaseValue(input[0]).value;
      BitValue(InputBit(input, Cursor(0, 0))) == v / 32 % 2 && BitValue(InputBit(input, Cursor(0, 1))) == v / 16 % 2
  {
    hide BaseValue;
  }

  /** Blanks stand for the plus signs a URL decoder has turned into blanks. */
  function Normalise(s: string): (r: string)
    ensures |r| == |s|
    ensures forall i :: 0 <= i < |s| ==> r[i] == if s[i] == ' ' then '+' else s[i]
  {
    if s == [] then [] else [if s[0] == ' ' then '+' else s[0]] + Normalise(s[1..])
  }

  function Decompress(compressed: Option<string>): Decoded {
    if compressed.None? || compressed.value == [] then Ok([])
    else DecodeStart(Normalise(compressed.value))
  }

  // ---------------------------------------------------------------- the source's own loops

  /** `read_bits` and the three variables it shares with the main loop. */
  class BitReader {
    const input: string
    var dataVal: nat
    var dataPosition: nat
    var dataIndex: nat
    ghost var at: Cursor

    ghost predicate Valid()
      reads this
    {
      && Loaded(input, at)
      && dataVal == CharValue(input, at)
      && dataPosition == Mask(at.bit)
      && dataIndex == at.index + 1
    }

    constructor (input: string)
      requires input != [] && BaseValue(input[0]).Some?
      ensures Valid() && at == Cursor(0, 0) && this.input == input
    {
      this.input := input;
      dataVal := BaseValue(input[0]).value;
      dataPosition := 32;
      dataIndex := 1;
      at := Cursor(0, 0);
    }

    /** One pass through the loop of `read_bits`: the bit, or None on a character error. */
    method ReadBit() returns (bit: Option<bool>)
      requires Valid()
      modifies this
      ensures bit.None? <==> !Loaded(input, old(at).Next())
      ensures bit.Some? ==> Valid() && at == old(at).Next() && bit.value == InputBit(input, old(at))
    {
      var resb := dataVal / dataPosition % 2 == 1;
      dataPosition := dataPosition / 2;
      if dataPosition == 0 {
        dataPosition := 32;
        if dataIndex < |input| {
          match BaseValue(input[dataIndex])
          case None => return None;
          case Some(v) => dataVal := v;
        } else {
          dataVal := 0;
        }
        dataIndex := dataIndex + 1;
      }
      at := at.Next();
      return Some(resb);
    }

    method ReadBits(bitCount: nat) returns (r: Option<nat>)
      requires Valid()
      modifies this
      ensures r.None? <==> Read(input, old(at), bitCount).None?
      ensures r.Some? ==> Valid() && Read(input, old(at), bitCount) == Some(Number(r.value, at))
    {
      hide Pow2, Read, Loaded, CharValue, InputBit, Mask;
      var bits: nat, power: nat := 0, 1;
      var maxPower := Pow2(bitCount);
      ghost var left: nat := bitCount;
      Pow2Step(0);
      CombineUnit(Read(input, at, bitCount));
      while power != maxPower
        invariant left <= bitCount && power == Pow2(bitCount - left)
        invariant Valid()
        invariant Read(input, old(at), bitCount) == Combine(bits, power, Read(input, at, left))
        decreases left
      {
        assert left > 0;
        ghost var before := at;
        var bit := ReadBit();
        if bit.None? {
          ReadStops(input, before, left);
          return None;
        }
        CombineStep(input, before, left, bits, power);
        Pow2Step(bitCount - left);
        if bit.value {
          bits := bits + power;
        }
        power := 2 * power;
        left := left - 1;
      }
      Pow2Injective(bitCount - left, bitCount);
      ReadNothing(input, at);
      return Some(bits);
    }

    /** `chr(read_bits(8))` after code 0, `chr(read_bits(16))` after code 1. */
    method ReadChr(code: nat) returns (u: Option<CodeUnit>)
      requires Valid()
      modifies this
      ensures u.None? <==> ReadUnit(input, old(at), code).None?
      ensures u.Some? ==> Valid() && ReadUnit(input, old(at), code) == Some(Number(u.value, at))
    {
      var v := ReadBits(if code == 0 then 8 else 16);
      if v.None? {
        return None;
      }
      assert ReadUnit(input, old(at), code).value.value < 0x1_0000;
      return Some(v.value as CodeUnit);
    }
  }

  /** The value of the bits read so far (`bits`, all below `power`) and of those still to come. */
  function Combine(bits: nat, power: nat, rest: Option<Number>): Option<Number> {
    match rest
    case None => None
    case Some(high) => Some(Number(bits + power * high.value, high.after))
  }

  lemma CombineUnit(rest: Option<Number>)
    ensures Combine(0, 1, rest) == rest
  {}

  lemma ReadNothing(input: string, at: Cursor)
    requires Loaded(input, at)
    ensures Read(input, at, 0) == Some(Number(0, at))
  {}

  lemma ReadStops(input: string, at: Cursor, n: nat)
    requires n > 0 && Loaded(input, at) && !Loaded(input, at.Next())
    ensures Read(input, at, n) == None
  {}

  lemma Pow2Step(n: nat)
    ensures Pow2(0) == 1 && Pow2(n + 1) == 2 * Pow2(n)
  {}

  lemma CombineStep(input: string, at: Cursor, n: nat, bits: nat, power: nat)
    requires n > 0 && Loaded(input, at) && Loaded(input, at.Next())
    ensures Combine(bits, power, Read(input, at, n))
         == Combine(bits + (if InputBit(input, at) then power else 0), 2 * power, Read(input, at.Next(), n - 1))
  {
    hide Loaded, CharValue, InputBit, Mask, Pow2;
    var rest := Read(input, at.Next(), n - 1);
    if rest.Some? {
      Distribute(power, BitValue(InputBit(input, at)), rest.value.value);
    }
  }

  lemma Distribute(p: int, b: int, h: int)
    ensures p * (b + 2 * h) == p * b + 2 * p * h
  {}

  lemma {:induction false} Pow2Injective(a: nat, b: nat)
    requires Pow2(a) == Pow2(b)
    ensures a == b
  {
    if a < b { Pow2Grows(a, b); }
    if b < a { Pow2Grows(b, a); }
  }

  lemma {:induction false} Pow2Grows(a: nat, b: nat)
    requires a < b
    ensures Pow2(a) < Pow2(b)
    decreases b
  {
    if a + 1 < b { Pow2Grows(a, b - 1); }
  }

  /** The map `dictionary` has exactly the keys below `dictSize` and agrees with `dict`. */
  ghost predicate Represents(dictionary: map<nat, Text>, dict: seq<Text>) {
    && (forall k: nat :: k in dictionary <==> k < |dict|)
    && forall k: nat :: k in dictionary ==> dictionary[k] == dict[k]
  }

  lemma RepresentsAppend(dictionary: map<nat, Text>, dict: seq<Text>, t: Text)
    requires Represents(dictionary, dict)
    ensures Represents(dictionary[|dict| := t], dict + [t])
  {}

  lemma RepresentsLookup(dictionary: map<nat, Text>, dict: seq<Text>, code: nat)
    requires Represents(dictionary, dict)
    ensures code in dictionary <==> code < |dict|
    ensures code < |dict| ==> dictionary[code] == dict[code]
  {}

  lemma RepresentsInitial(u: CodeUnit)
    ensures Represents(map[0 := [], 1 := [], 2 := [], 3 := [u]], InitialDecoder(u).dict)
  {
    var d: seq<Text> := [[], [], [], [u]];
    assert d[0] == [] && d[1] == [] && d[2] == [] && d[3] == [u];
    assert InitialDecoder(u).dict == d;
  }

  /** `_decompress`: the first code, then the main loop. */
  method DecompressChars(input: string) returns (r: Decoded)
    requires input != []
    ensures r == DecodeStart(input)
  {
    hide Pow2, Mask, CharValue, InputBit, Read;
    if BaseValue(input[0]).None? {
      return Invalid;
    }
    var reader := new BitReader(input);
    var nextCode := reader.ReadBits(2);
    if nextCode.None? {
      return Invalid;
    }
    if nextCode.value == 2 {
      return Ok([]);
    } else if nextCode.value > 2 {
      return Invalid;
    }
    var first := reader.ReadChr(nextCode.value);
    if first.None? {
      return Invalid;
    }
    r := MainLoop(reader, first.value);
  }

  /** The unbounded loop of `_decompress`, entered with the first unit `c` decoded. */
  method MainLoop(reader: BitReader, c: CodeUnit) returns (r: Decoded)
    requires reader.Valid()
    modifies reader
    ensures r == DecodeFrom(reader.input, old(reader.at), InitialDecoder(c))
  {
    hide Pow2, Mask, CharValue, InputBit, Read, Represents, BaseValue, ReadUnit, DecoderOk;
    var length := |reader.input|;
    var dictionary: map<nat, Text> := map[0 := [], 1 := [], 2 := [], 3 := [c]];
    var enlargeIn, dictSize, numBits := 4, 4, 3;
    var w: Text, result: Text := [c], [c];
    ghost var d := InitialDecoder(c);
    RepresentsInitial(c);
    while true
      invariant reader.Valid()
      invariant DecoderOk(d) && Represents(dictionary, d.dict) && dictSize == |d.dict|
      invariant d.widths == Widths(numBits, enlargeIn) && d.w == w && d.out == result
      invariant DecodeFrom(reader.input, old(reader.at), InitialDecoder(c)) == DecodeFrom(reader.input, reader.at, d)
      decreases 6 * length - reader.at.Count()
    {
      DecoderSizes(d);
      if reader.dataIndex > length {
        return Ok([]);
      }
      var code := reader.ReadBits(numBits);
      if code.None? {
        return Invalid;
      }
      var cCode := code.value;
      if cCode == 2 {
        return Ok(result);
      }
      if cCode < 2 {
        var u := reader.ReadChr(cCode);
        if u.None? {
          return Invalid;
        }
        RepresentsAppend(dictionary, d.dict, [u.value]);
        dictionary := dictionary[dictSize := [u.value]];
        dictSize := dictSize + 1;
        cCode := dictSize - 1;
        enlargeIn := enlargeIn - 1;
        d := AddUnit(d, u.value);
        DecoderSizes(d);
      }
      enlargeIn, numBits := Enlarge(enlargeIn, numBits);
      RepresentsLookup(dictionary, d.dict, cCode);
      var entry: Text;
      if cCode in dictionary {
        entry := dictionary[cCode];
      } else if cCode == dictSize {
        entry := w + [w[0]];
      } else {
        return Ok([]);
      }
      result := result + entry;
      RepresentsAppend(dictionary, d.dict, w + [entry[0]]);
      dictionary := dictionary[dictSize := w + [entry[0]]];
      dictSize := dictSize + 1;
      enlargeIn, numBits := Enlarge(enlargeIn - 1, numBits);
      w := entry;
      d := Advance(d, entry);
    }
  }

  lemma DecoderSizes(d: Decoder)
    requires DecoderOk(d)
    ensures |d.dict| >= 4 && d.widths.left >= 1 && d.widths.bits >= 3 && d.w != []
  {}

  /** The `if enlarge_in == 0` block that follows each decrement. */
  method Enlarge(enlargeIn: nat, numBits: nat) returns (left: nat, bits: nat)
    ensures Widths(bits, left) == Spend(Widths(numBits, enlargeIn + 1))
  {
    left, bits := enlargeIn, numBits;
    if left == 0 {
      left := Pow2(bits);
      bits := bits + 1;
    }
  }

  /** `decompress_from_encoded_uri_component`. */
  method DecompressUri(compressed: Option<string>) returns (r: Decoded)
    ensures r == Decompress(compressed)
  {
    if compressed.None? || compressed.value == [] {
      return Ok([]);
    }
    r := DecompressChars(Normalise(compressed.value));
  }

  // ---------------------------------------------------------------- the encoder

  /** `n` bits of `value`, least significant first. */
  function BitsOf(value: nat, n: nat): (bits: seq<bool>)
    ensures |bits| == n
  {
    if n == 0 then [] else [value % 2 == 1] + BitsOf(value / 2, n - 1)
  }

  /** State of the JavaScript encoder: `dict` its dictionary, `unsent` the single-unit entries
      still to be transmitted, `w` the current word, `size` the next free code. */
  datatype Encoder = Encoder(dict: map<Text, nat>, unsent: set<Text>, w: Text, size: nat, widths: Widths)

  ghost predicate EncoderOk(e: Encoder) {
    && e.widths.left >= 1
    && (e.w != [] ==> e.w in e.dict)
  }

  /** Spending two slots needs no second test for exhaustion: a refill leaves at least two. */
  function SpendTwice(x: Widths): (r: Widths)
    requires x.left >= 1
    ensures r.left >= 1
  {
    Spend(Spend(x))
  }

  /** A unit sent for the first time: code 0 or 1 with `n` bits, then 8 or 16 bits for the unit. */
  function UnitBits(u: CodeUnit, n: nat): seq<bool> {
    if u < 256 then BitsOf(0, n) + BitsOf(u, 8) else BitsOf(1, n) + BitsOf(u, 16)
  }

  /** The bits for the current word, and the code widths after it. */
  function Emit(e: Encoder): (r: (seq<bool>, Widths))
    requires EncoderOk(e) && e.w != []
    ensures r.1.left >= 1
  {
    if e.w in e.unsent then
      (UnitBits(e.w[0], e.widths.bits), SpendTwice(e.widths))
    else
      (BitsOf(e.dict[e.w], e.widths.bits), Spend(e.widths))
  }

  /** A unit seen for the first time gets the next code at once and is sent with its word. */
  function Meet(e: Encoder, c: CodeUnit): (r: Encoder)
    requires EncoderOk(e)
    ensures EncoderOk(r) && [c] in r.dict
  {
    if [c] in e.dict then e
    else e.(dict := e.dict[[c] := e.size], unsent := e.unsent + {[c]}, size := e.size + 1)
  }

  /** After the word was sent: `w` extended by `c` is learnt, and `c` starts the next word. */
  function Learn(e: Encoder, c: CodeUnit): (r: Encoder)
    requires EncoderOk(e) && e.w != [] && [c] in e.dict
    ensures EncoderOk(r)
  {
    Encoder(e.dict[e.w + [c] := e.size], e.unsent - {e.w}, [c], e.size + 1, Emit(e).1)
  }

  /** All bits still to be written when `rest` is still to be read: the encoder's main loop,
      the last word, and the end code 2. */
  function EncodeFrom(e: Encoder, rest: Text): seq<bool>
    requires EncoderOk(e)
    decreases |rest|
  {
    if rest == [] then
      if e.w == [] then BitsOf(2, e.widths.bits) else Emit(e).0 + BitsOf(2, Emit(e).1.bits)
    else
      var met := Meet(e, rest[0]);
      assert [] + [rest[0]] == [rest[0]];
      if met.w + [rest[0]] in met.dict then EncodeFrom(met.(w := met.w + [rest[0]]), rest[1..])
      else Emit(met).0 + EncodeFrom(Learn(met, rest[0]), rest[1..])
  }

  /** Six bits a character, most significant first, and at least one padding bit. */
  function Pack(bits: seq<bool>): (s: string)
    ensures s != []
  {
    if |bits| < 6 then [CharOf(SixBits(bits))]
    else [CharOf(SixBits(bits[..6]))] + Pack(bits[6..])
  }

  function SixBits(bits: seq<bool>): (v: nat)
    requires |bits| <= 6
    ensures v < 64
  {
    var bit := (k: nat) => if k < |bits| && bits[k] then 1 else 0;
    32 * bit(0) + 16 * bit(1) + 8 * bit(2) + 4 * bit(3) + 2 * bit(4) + bit(5)
  }

  const START_ENCODER := Encoder(map[], {}, [], 3, Widths(2, 2))

  /** `compressToEncodedURIComponent`. */
  function Compress(s: Text): string {
    Pack(EncodeFrom(START_ENCODER, s))
  }

  // ---------------------------------------------------------------- reading back what was written

  /** From `at` on, the input holds `bits`, all within its characters. */
  ghost predicate Holds(input: string, at: Cursor, bits: seq<bool>)
    decreases |bits|
  {
    && Loaded(input, at)
    && (bits != [] ==>
          && at.index < |input|
          && InputBit(input, at) == bits[0]
          && Holds(input, at.Next(), bits[1..]))
  }

  function Skip(at: Cursor, n: nat): Cursor
    decreases n
  {
    if n == 0 then at else Skip(at.Next(), n - 1)
  }

  lemma {:induction false} HoldsParts(input: string, at: Cursor, a: seq<bool>, b: seq<bool>)
    requires Holds(input, at, a + b)
    ensures Holds(input, at, a) && Holds(input, Skip(at, |a|), b)
    decreases |a|
  {
    hide InputBit, Loaded;
    if a == [] {
      assert a + b == b;
    } else {
      assert (a + b)[0] == a[0] && (a + b)[1..] == a[1..] + b;
      HoldsParts(input, at.Next(), a[1..], b);
    }
  }

  /** A code written with `n` bits is read back as it was, provided it fits. */
  lemma {:induction false} ReadBack(input: string, at: Cursor, v: nat, n: nat)
    requires Holds(input, at, BitsOf(v, n)) && v < Pow2(n)
    ensures Read(input, at, n) == Some(Number(v, Skip(at, n)))
    decreases n
  {
    hide InputBit, Loaded;
    if n > 0 {
      var bits := BitsOf(v, n);
      assert bits[0] == (v % 2 == 1) && bits[1..] == BitsOf(v / 2, n - 1);
      ReadBack(input, at.Next(), v / 2, n - 1);
    }
  }

  /** Every character of the input is in the alphabet. */
  predicate AllLoaded(input: string) {
    forall i :: 0 <= i < |input| ==> BaseValue(input[i]).Some?
  }

  /** The packed string holds the bits, and at least one bit more. */
  lemma {:induction false} PackHolds(pre: string, bits: seq<bool>)
    requires AllLoaded(pre)
    ensures AllLoaded(pre + Pack(bits))
    ensures Holds(pre + Pack(bits), Cursor(|pre|, 0), bits)
    decreases |bits|
  {
    var input := pre + Pack(bits);
    var here := if |bits| < 6 then bits else bits[..6];
    var c := CharOf(SixBits(here));
    assert input[|pre|] == c;
    if |bits| < 6 {
      assert input == pre + [c];
      SixHold(input, |pre|, 0, bits);
    } else {
      assert input == (pre + [c]) + Pack(bits[6..]);
      PackHolds(pre + [c], bits[6..]);
      SixHold(input, |pre|, 0, bits);
    }
  }

  /** Bits `k` to 5 of one packed character, followed by what the next character holds. */
  lemma {:induction false} SixHold(input: string, i: nat, k: nat, bits: seq<bool>)
    requires AllLoaded(input) && i < |input| && k <= 6 && (k == 6 ==> |bits| >= 6)
    requires k <= |bits|
    requires input[i] == CharOf(SixBits(if |bits| < 6 then bits else bits[..6]))
    requires |bits| > 6 ==> Holds(input, Cursor(i + 1, 0), bits[6..])
    ensures Holds(input, if k < 6 then Cursor(i, k) else Cursor(i + 1, 0), bits[k..])
    decreases 6 - k
  {
    if k == 6 {
      assert |bits| == 6 ==> bits[6..] == [];
    } else if k < |bits| {
      SixHold(input, i, k + 1, bits);
      SixBit(if |bits| < 6 then bits else bits[..6], k);
      assert bits[k..][1..] == bits[k + 1..];
    }
  }

  lemma SixBit(bits: seq<bool>, k: nat)
    requires k < |bits| <= 6
    ensures SixBits(bits) / Mask(k) % 2 == 1 <==> bits[k]
  {}

  // ---------------------------------------------------------------- encoder and decoder in step

  /** The word both sides are about to learn: the decoder's last word and the first unit of the
      encoder's current one. */
  ghost function Link(e: Encoder, d: Decoder): Text
    requires e.w != []
  {
    d.w + [e.w[0]]
  }

  /** Encoder and decoder right after the same number of words. The decoder lags by one entry:
      `Link` already has a code on the encoder's side, and so has a unit still to be sent. */
  ghost predicate InStep(e: Encoder, d: Decoder) {
    && DecoderOk(d) && EncoderOk(e) && e.w != []
    && e.widths == d.widths
    && e.size == |d.dict| + 1 + |e.unsent|
    && Link(e, d) in e.dict && e.dict[Link(e, d)] == e.size - 1
    && (e.unsent == {} || UnitUnsent(e, |d.dict|))
    && (forall i :: 3 <= i < |d.dict| ==> d.dict[i] in e.dict && e.dict[d.dict[i]] == i)
    && (forall t :: t in e.dict ==> t == Link(e, d) || t in e.unsent || Known(t, e.dict[t], d.dict))
    && UnitsKnown(e)
  }

  ghost predicate Known(t: Text, code: nat, dict: seq<Text>) {
    3 <= code < |dict| && dict[code] == t
  }

  /** The one unit still to be sent is the whole current word, and no other entry starts with it. */
  ghost predicate UnitUnsent(e: Encoder, code: nat)
    requires e.w != []
  {
    && e.unsent == {e.w} && |e.w| == 1
    && e.w in e.dict && e.dict[e.w] == code
    && forall t :: t in e.dict && t != e.w ==> t != [] && t[0] != e.w[0]
  }

  /** The units of every entry are entries themselves. */
  ghost predicate UnitsKnown(e: Encoder) {
    forall t, k :: t in e.dict && 0 <= k < |t| ==> [t[k]] in e.dict
  }

  /** The decoder after it has read the encoder's current word. */
  ghost function After(e: Encoder, d: Decoder): Decoder
    requires InStep(e, d)
  {
    if e.w in e.unsent then Advance(AddUnit(d, e.w[0]), e.w) else Advance(d, e.w)
  }

  /** Reading the current word takes the decoder from `d` to `After(e, d)`. */
  lemma DecodeWord(e: Encoder, d: Decoder, input: string, at: Cursor)
    requires InStep(e, d) && Holds(input, at, Emit(e).0)
    ensures var next := Skip(at, |Emit(e).0|);
      Loaded(input, next) && DecodeFrom(input, at, d) == DecodeFrom(input, next, After(e, d))
    ensures After(e, d).widths == Emit(e).1
  {
    hide Pow2, Mask, CharValue, InputBit, Read;
    var n := e.widths.bits;
    if e.w in e.unsent {
      assert [e.w[0]] == e.w;
      DecodeNewUnit(d, e.w[0], input, at);
    } else {
      var code := e.dict[e.w];
      CodeFits(d, code);
      ReadBack(input, at, code, n);
      assert BitsOf(code, n) != [];
      assert Lookup(d, code) == Some(e.w) by {
        if e.w == Link(e, d) {
          assert e.w[0] == d.w[0];
        } else {
          assert Known(e.w, code, d.dict);
        }
      }
      assert code >= 3;
    }
  }

  lemma CodeFits(d: Decoder, code: nat)
    requires DecoderOk(d) && code <= |d.dict|
    ensures code < Pow2(d.widths.bits)
  {}

  lemma DecodeNewUnit(d: Decoder, u: CodeUnit, input: string, at: Cursor)
    requires DecoderOk(d) && Holds(input, at, UnitBits(u, d.widths.bits))
    ensures var next := Skip(at, |UnitBits(u, d.widths.bits)|);
      && Loaded(input, next)
      && DecodeFrom(input, at, d) == DecodeFrom(input, next, Advance(AddUnit(d, u), [u]))
  {
    hide Pow2, Mask, CharValue, InputBit, Read, ReadUnit;
    CodeFits(d, 1);
    ReadUnitBack(u, d.widths.bits, input, at);
    assert UnitBits(u, d.widths.bits) != [];
  }

  lemma ReadUnitBack(u: CodeUnit, n: nat, input: string, at: Cursor)
    requires 1 < Pow2(n) && Holds(input, at, UnitBits(u, n))
    ensures Loaded(input, at) && Loaded(input, Skip(at, n))
    ensures var code := if u < 256 then 0 else 1;
      && Read(input, at, n) == Some(Number(code, Skip(at, n)))
      && ReadUnit(input, Skip(at, n), code) == Some(Number(u, Skip(at, |UnitBits(u, n)|)))
  {
    hide Pow2, Mask, CharValue, InputBit, Read;
    var code, size := if u < 256 then 0 else 1, if u < 256 then 8 else 16;
    UnitFits();
    HoldsParts(input, at, BitsOf(code, n), BitsOf(u, size));
    ReadBack(input, at, code, n);
    ReadBack(input, Skip(at, n), u, size);
    SkipSum(at, n, size);
  }

  lemma {:induction false} SkipSum(at: Cursor, a: nat, b: nat)
    ensures Skip(Skip(at, a), b) == Skip(at, a + b)
    decreases a
  {
    if a > 0 { SkipSum(at.Next(), a - 1, b); }
  }

  /** A unit that is new cannot extend the current word to a known one. */
  lemma ExtendInStep(e: Encoder, d: Decoder, c: CodeUnit)
    requires InStep(e, d) && e.w + [c] in Meet(e, c).dict
    ensures Meet(e, c) == e && InStep(e.(w := e.w + [c]), d)
  {
    hide Pow2;
    var wc := e.w + [c];
    assert wc[|e.w|] == c && wc[0] == e.w[0];
    assert |wc| >= 2 && wc != [c];
    assert wc in e.dict;
    assert [wc[|e.w|]] in e.dict;
    assert e.unsent == {};
  }

  /** Between two words: every entry has the same code on both sides. */
  ghost predicate Settled(e: Encoder, dict: seq<Text>) {
    && (forall t :: t in e.dict ==> t != [] && Known(t, e.dict[t], dict))
    && (forall i :: 3 <= i < |dict| ==> dict[i] in e.dict && e.dict[dict[i]] == i)
    && e.size == |dict|
    && UnitsKnown(e)
  }

  lemma LearnInStep(e: Encoder, d: Decoder, c: CodeUnit)
    requires InStep(e, d) && e.w + [c] !in Meet(e, c).dict
    ensures EncoderOk(Meet(e, c)) && Emit(Meet(e, c)) == Emit(e)
    ensures InStep(Learn(Meet(e, c), c), After(e, d))
  {
    hide Pow2, DecodeFrom;
    assert [c] !in e.dict ==> e.w != [c];
    SettledAfter(e, d);
    SettledLearn(e, After(e, d), c);
  }

  /** From a settled state, meeting `c` and learning `w` + `c` brings the two sides in step. */
  lemma SettledLearn(e: Encoder, d: Decoder, c: CodeUnit)
    requires EncoderOk(e) && e.w != [] && Settled(e, d.dict) && e.unsent <= {e.w}
    requires DecoderOk(d) && d.w == e.w && d.widths == Emit(e).1
    requires e.w + [c] !in Meet(e, c).dict
    ensures InStep(Learn(Meet(e, c), c), d)
  {
    hide Pow2, BitsOf, UnitBits;
    var met := Meet(e, c);
    var e' := Learn(met, c);
    var wc := e.w + [c];
    assert wc[0] == e.w[0] && |wc| >= 2 && [c][0] == c;
    assert [c] !in e.dict ==> e.w != [c];
    assert Emit(met) == Emit(e);
    assert Link(e', d) == wc;
    assert e'.dict == met.dict[wc := met.size];
    assert e'.unsent == (if [c] in e.dict then {} else {[c]});
    LearnUnits(e, c);
    forall t | t in e'.dict && [c] !in e.dict && t != [c] ensures t != [] && t[0] != c {
      if t == wc { assert [e.w[0]] in e.dict; } else { assert [t[0]] in e.dict; }
    }
    assert [c] !in e.dict ==> UnitUnsent(e', |d.dict|);
    forall t | t in e'.dict
      ensures t == wc || t in e'.unsent || Known(t, e'.dict[t], d.dict)
    {
      if t in e.dict { assert e'.dict[t] == e.dict[t]; }
    }
  }

  lemma LearnUnits(e: Encoder, c: CodeUnit)
    requires EncoderOk(e) && e.w != [] && UnitsKnown(e)
    ensures UnitsKnown(Learn(Meet(e, c), c))
  {
    var met := Meet(e, c);
    var e' := Learn(met, c);
    var wc := e.w + [c];
    assert e'.dict == met.dict[wc := met.size];
    forall t, k | t in e'.dict && 0 <= k < |t| ensures [t[k]] in e'.dict {
      if t == wc {
        if k < |e.w| { assert wc[k] == e.w[k] && [e.w[k]] in e.dict; }
      } else if t in e.dict {
        assert [t[k]] in e.dict;
      }
    }
  }

  /** Every entry the encoder had has its code in the decoder's dictionary after the word. */
  lemma SettledAfter(e: Encoder, d: Decoder)
    requires InStep(e, d)
    ensures Settled(e, After(e, d).dict) && After(e, d).w == e.w && After(e, d).widths == Emit(e).1
  {
    hide Pow2;
    var d' := After(e, d);
    var m := |d.dict|;
    assert d'.dict == d.dict + (if e.w in e.unsent then [e.w] else []) + [Link(e, d)];
    assert forall i :: 0 <= i < m ==> d'.dict[i] == d.dict[i];
    assert d'.dict[e.size - 1] == Link(e, d);
    if e.w in e.unsent { assert d'.dict[m] == e.w && [e.w[0]] == e.w; }
    forall t | t in e.dict ensures t != [] && Known(t, e.dict[t], d'.dict) {
      if t == Link(e, d) {
      } else if t in e.unsent {
        assert t == e.w;
      } else {
        assert Known(t, e.dict[t], d.dict);
      }
    }
  }

  lemma EncodeLast(e: Encoder)
    requires EncoderOk(e) && e.w != []
    ensures EncodeFrom(e, []) == Emit(e).0 + BitsOf(2, Emit(e).1.bits)
  {
    hide Emit, EncoderOk;
  }

  lemma EncodeStep(e: Encoder, rest: Text)
    requires EncoderOk(e) && e.w != [] && rest != []
    ensures var (met, wc) := (Meet(e, rest[0]), e.w + [rest[0]]);
      && met.w == e.w
      && (wc in met.dict ==> EncoderOk(met.(w := wc)) && EncodeFrom(e, rest) == EncodeFrom(met.(w := wc), rest[1..]))
      && (wc !in met.dict ==> EncodeFrom(e, rest) == Emit(met).0 + EncodeFrom(Learn(met, rest[0]), rest[1..]))
  {
    hide Emit;
  }

  /** From any moment on, decoding what the encoder still writes gives what was decoded so far,
      the current word, and the text still to be encoded. */
  lemma {:induction false} RoundTripFrom(e: Encoder, rest: Text, d: Decoder, input: string, at: Cursor)
    requires InStep(e, d) && Holds(input, at, EncodeFrom(e, rest))
    ensures DecodeFrom(input, at, d) == Ok(d.out + e.w + rest)
    decreases |rest|
  {
    InStepWord(e, d);
    hide Pow2, Mask, CharValue, InputBit, Read, InStep, EncoderOk, DecoderOk, Emit, Meet, Learn, After, EncodeFrom,
         DecodeFrom, Holds, Skip, BitsOf;
    if rest == [] {
      var end := BitsOf(2, Emit(e).1.bits);
      EncodeLast(e);
      HoldsParts(input, at, Emit(e).0, end);
      DecodeWord(e, d, input, at);
      DecodeEnd(After(e, d), input, Skip(at, |Emit(e).0|));
      assert d.out + e.w + [] == d.out + e.w;
    } else {
      var c := rest[0];
      var met := Meet(e, c);
      EncodeStep(e, rest);
      Regroup(d.out, e.w, rest);
      if e.w + [c] in met.dict {
        ExtendInStep(e, d, c);
        RoundTripFrom(e.(w := e.w + [c]), rest[1..], d, input, at);
      } else {
        LearnInStep(e, d, c);
        LearnsUnit(met, c);
        HoldsParts(input, at, Emit(e).0, EncodeFrom(Learn(met, c), rest[1..]));
        DecodeWord(e, d, input, at);
        RoundTripFrom(Learn(met, c), rest[1..], After(e, d), input, Skip(at, |Emit(e).0|));
      }
    }
  }

  lemma Regroup(a: Text, w: Text, rest: Text)
    requires rest != []
    ensures a + (w + [rest[0]]) + rest[1..] == a + w + rest
    ensures (a + w) + [rest[0]] + rest[1..] == a + w + rest
  {}

  lemma LearnsUnit(e: Encoder, c: CodeUnit)
    requires EncoderOk(e) && e.w != [] && [c] in e.dict
    ensures Learn(e, c).w == [c]
  {
    hide Emit;
  }

  lemma InStepWord(e: Encoder, d: Decoder)
    requires InStep(e, d)
    ensures EncoderOk(e) && DecoderOk(d) && e.w != []
    ensures After(e, d).out == d.out + e.w && DecoderOk(After(e, d))
  {}

  /** The end code finishes decoding. */
  lemma DecodeEnd(d: Decoder, input: string, at: Cursor)
    requires DecoderOk(d) && Holds(input, at, BitsOf(2, d.widths.bits))
    ensures DecodeFrom(input, at, d) == Ok(d.out)
  {
    hide Mask, CharValue, InputBit, Read;
    CodeFits(d, 2);
    ReadBack(input, at, 2, d.widths.bits);
    assert BitsOf(2, d.widths.bits) != [];
  }

  /** The first word is the first unit alone; after it both sides are in step. */
  lemma FirstWord(s: Text, input: string)
    requires s != [] && input != [] && Holds(input, Cursor(0, 0), EncodeFrom(START_ENCODER, s))
    ensures DecodeStart(input) == Ok(s)
  {
    hide *;
    var c := s[0];
    var unit := UnitBits(c, 2);
    var tail := FirstWordBits(s);
    HoldsParts(input, Cursor(0, 0), unit, tail);
    DecodeFirstUnit(c, input);
    var d, next := InitialDecoder(c), Skip(Cursor(0, 0), |unit|);
    assert d.widths.bits == 3 && d.w == [c] && d.out == [c] by { InitialParts(c); }
    if |s| == 1 {
      DecodeEnd(d, input, next);
    } else {
      SecondInStep(c, s[1]);
      var e := SecondWord(c, s[1]);
      RoundTripFrom(e, s[2..], d, input, next);
      assert [c] + [s[1]] + s[2..] == s;
    }
  }

  lemma InitialParts(c: CodeUnit)
    ensures InitialDecoder(c).widths.bits == 3 && InitialDecoder(c).w == [c] && InitialDecoder(c).out == [c]
  {}

  lemma DecodeFirstUnit(c: CodeUnit, input: string)
    requires input != [] && Holds(input, Cursor(0, 0), UnitBits(c, 2))
    ensures var next := Skip(Cursor(0, 0), |UnitBits(c, 2)|);
      Loaded(input, next) && DecodeStart(input) == DecodeFrom(input, next, InitialDecoder(c))
  {
    hide *;
    Pow2Small();
    ReadUnitBack(c, 2, input, Cursor(0, 0));
    var code := if c < 256 then 0 else 1;
    StartContinues(input, Number(code, Skip(Cursor(0, 0), 2)), Number(c, Skip(Cursor(0, 0), |UnitBits(c, 2)|)));
  }

  lemma StartContinues(input: string, code: Number, unit: Number)
    requires input != [] && Loaded(input, Cursor(0, 0)) && Read(input, Cursor(0, 0), 2) == Some(code)
    requires code.value < 2 && ReadUnit(input, code.after, code.value) == Some(unit)
    ensures DecodeStart(input) == DecodeFrom(input, unit.after, InitialDecoder(unit.value))
  {
    hide Read, ReadUnit, DecodeFrom, InitialDecoder, Pow2, BaseValue;
  }

  lemma Pow2Small()
    ensures Pow2(2) == 4 && Pow2(3) == 8
  {
    assert Pow2(0) == 1 && Pow2(1) == 2;
  }

  /** The encoder after it has read its first unit. */
  ghost function OneUnit(c: CodeUnit): (e: Encoder)
    ensures EncoderOk(e)
  {
    Encoder(map[[c] := 3], {[c]}, [c], 4, Widths(2, 2))
  }

  /** The encoder after it has sent its first word and met `next`. */
  ghost function SecondWord(c: CodeUnit, next: CodeUnit): (e: Encoder)
    ensures EncoderOk(e) && e.w == [next]
  {
    Learn(Meet(OneUnit(c), next), next)
  }

  /** The first word's bits and the rest of the output. */
  lemma FirstWordBits(s: Text) returns (tail: seq<bool>)
    requires s != []
    ensures EncodeFrom(START_ENCODER, s) == UnitBits(s[0], 2) + tail
    ensures |s| == 1 ==> tail == BitsOf(2, 3)
    ensures |s| > 1 ==> tail == EncodeFrom(SecondWord(s[0], s[1]), s[2..])
  {
    var c := s[0];
    var e := OneUnit(c);
    Pow2Small();
    assert START_ENCODER.w + [c] == [c];
    assert Meet(START_ENCODER, c).(w := [c]) == e;
    assert EncodeFrom(START_ENCODER, s) == EncodeFrom(e, s[1..]);
    assert SpendTwice(Widths(2, 2)) == Widths(3, 4);
    if |s| == 1 {
      tail := BitsOf(2, 3);
    } else {
      var met := Meet(e, s[1]);
      assert s[1..][0] == s[1] && s[1..][1..] == s[2..];
      assert |met.w + [s[1]]| == 2;
      assert met.w + [s[1]] !in met.dict;
      tail := EncodeFrom(Learn(met, s[1]), s[2..]);
    }
  }

  lemma SecondInStep(c: CodeUnit, next: CodeUnit)
    ensures InStep(SecondWord(c, next), InitialDecoder(c))
  {
    var e, d := OneUnit(c), InitialDecoder(c);
    Pow2Small();
    assert forall t, k :: t in e.dict && 0 <= k < |t| ==> t == [c] && t[k] == c;
    assert SpendTwice(Widths(2, 2)) == Widths(3, 4);
    assert d.dict[3] == [c];
    assert |e.w + [next]| == 2;
    SettledLearn(e, d, next);
  }

  /** The decoder inverts the encoder, for every sequence of 16-bit code units. */
  lemma RoundTrip(s: Text)
    ensures Decompress(Some(Compress(s))) == Ok(s)
  {
    RoundTripThroughUrl(s, Compress(s));
  }

  /** Also when plus signs have become blanks on the way. */
  lemma RoundTripThroughUrl(s: Text, t: string)
    requires |t| == |Compress(s)|
    requires forall i :: 0 <= i < |t| ==> t[i] == Compress(s)[i] || (t[i] == ' ' && Compress(s)[i] == '+')
    ensures Decompress(Some(t)) == Ok(s)
  {
    hide InputBit, Pack, EncodeFrom, Read, DecodeFrom, DecodeStart;
    var input := Compress(s);
    var bits := EncodeFrom(START_ENCODER, s);
    assert [] + Pack(bits) == input;
    PackHolds([], bits);
    NoBlanks(input);
    assert Normalise(t) == input;
    if s == [] {
      EncodeNothing(input);
    } else {
      FirstWord(s, input);
    }
  }

  lemma EncodeNothing(input: string)
    requires input != [] && Holds(input, Cursor(0, 0), EncodeFrom(START_ENCODER, []))
    ensures DecodeStart(input) == Ok([])
  {
    hide InputBit, Read;
    Pow2Small();
    ReadBack(input, Cursor(0, 0), 2, 2);
  }

  lemma NoBlanks(input: string)
    requires AllLoaded(input)
    ensures forall i :: 0 <= i < |input| ==> input[i] != ' '
  {}
}
