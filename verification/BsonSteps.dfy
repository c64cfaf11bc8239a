/** What one step of the iterator takes for an element of each type, as conditions on the bytes, and where it reports damage. */
module BsonSteps {
  import opened Bytes
  import opened BsonDecode
  import opened BsonLayout

  lemma FieldIs(raw: seq<byte>, o: nat)
    requires o + 4 <= |raw|
    ensures U32At(raw, o) == Little(raw[o..o + 4])
  {
    LittleFour(raw[o..o + 4]);
  }

  /** The step over a payload at `o`, as `Decode` takes it once it has found the end of the key. */
  function StepAt(raw: seq<byte>, tag: byte, at: nat, o: nat): Step
    requires o <= |raw|
  {
    Bounded(raw, DecodePayload(raw, tag, at, o), o)
  }

  /** A step is a type byte, a key up to its NUL, and the payload behind it. */
  lemma DecodeIsStep(raw: seq<byte>, at: nat)
    requires at + 1 < |raw|
    ensures var k := FindNul(raw, at + 1); Decode(raw, at) == if k < |raw| then StepAt(raw, raw[at], at, k + 1) else End
  {}

  /** The width of a type that has a fixed one. */
  function Width(tag: byte): int {
    match tag
    case 0x01 => 8
    case 0x06 => 0
    case 0x07 => 12
    case 0x09 => 8
    case 0x0a => 0
    case 0x10 => 4
    case 0x11 => 8
    case 0x12 => 8
    case 0x13 => 16
    case 0x7f => 0
    case 0xff => 0
    case _ => -1
  }

  /** Fixed width: it must end in front of the document's last byte. */
  lemma FixedIff(raw: seq<byte>, tag: byte, at: nat, o: nat)
    requires o <= |raw| && Width(tag) >= 0
    ensures var f := StepAt(raw, tag, at, o);
            if o + Width(tag) < |raw| then f.Found? && f.next == o + Width(tag) else f == Damage(o)
  {}

  /** A boolean is one byte, 0 or 1. */
  lemma BooleanIff(raw: seq<byte>, at: nat, o: nat)
    requires o <= |raw|
    ensures var f := StepAt(raw, 0x08, at, o);
            if o + 1 < |raw| && raw[o] <= 1 then f.Found? && f.next == o + 1 else f == Damage(o)
  {}

  /** A length of at least one, that many bytes in front of the last one, and the last of them NUL; a byte that should be NUL is where the damage is. */
  lemma StringIff(raw: seq<byte>, tag: byte, at: nat, o: nat)
    requires o <= |raw| && tag in {0x02, 0x0d, 0x0e}
    ensures var f := StepAt(raw, tag, at, o);
            if o + 4 < |raw| && (var l := Little(raw[o..o + 4]); l >= 1 && o + 4 + l < |raw|) then
              var l := Little(raw[o..o + 4]);
              if raw[o + 3 + l] == 0 then f == Found(o, o + 4, 0, 0, o + 4 + l) else f == Damage(o + 3 + l)
            else f == Damage(o)
  {
    if o + 4 < |raw| {
      FieldIs(raw, o);
    }
    hide Little, U32;
  }

  /** A document needs only its length to fit; what it holds is not looked at. */
  lemma DocumentIff(raw: seq<byte>, tag: byte, at: nat, o: nat)
    requires o <= |raw| && (tag == 0x03 || tag == 0x04)
    ensures var f := StepAt(raw, tag, at, o);
            if o + 4 < |raw| && o + Little(raw[o..o + 4]) < |raw| then f == Found(o, 0, 0, 0, o + Little(raw[o..o + 4])) else f == Damage(o)
  {
    if o + 4 < |raw| {
      FieldIs(raw, o);
    }
    hide Little, U32;
  }

  /** A length, a subtype and that many bytes; of subtype 2 a second length that agrees with the first. */
  lemma BinaryIff(raw: seq<byte>, at: nat, o: nat)
    requires o <= |raw|
    ensures var f := StepAt(raw, 0x05, at, o);
            if o + 4 < |raw| && o + 5 + Little(raw[o..o + 4]) < |raw| && (raw[o + 4] == 2 ==> Little(raw[o..o + 4]) >= 4) then
              var l := Little(raw[o..o + 4]);
              if raw[o + 4] == 2 && Little(raw[o + 5..o + 9]) + 4 != l then f == Damage(o + 5) else f == Found(o, o + 4, o + 5, 0, o + 5 + l)
            else f.Corrupt? && !f.unsupported && (f.err == o || (o + 9 <= |raw| && raw[o + 4] == 2 && f == Damage(o + 5)))
  {
    if o + 4 < |raw| {
      FieldIs(raw, o);
      if o + 9 <= |raw| {
        FieldIs(raw, o + 5);
      }
    }
    hide Little, U32;
  }

  /** Two texts, each up to a NUL. */
  lemma RegexIff(raw: seq<byte>, at: nat, o: nat)
    requires o <= |raw|
    ensures var f := StepAt(raw, 0x0b, at, o);
            var e1 := FindNul(raw, o);
            var e2 := if e1 < |raw| then FindNul(raw, e1 + 1) else e1;
            if e1 == |raw| || e2 == |raw| then f == Damage(at)
            else if e2 + 1 < |raw| then f == Found(o, e1 + 1, 0, 0, e2 + 1) else f == Damage(o)
  {}

  /** A text as above, and twelve bytes. */
  lemma PointerIff(raw: seq<byte>, at: nat, o: nat)
    requires o <= |raw|
    ensures var f := StepAt(raw, 0x0c, at, o);
            if o + 4 < |raw| && (var l := Little(raw[o..o + 4]); l >= 1 && o + 4 + l <= |raw|) then
              var l := Little(raw[o..o + 4]);
              if raw[o + 3 + l] != 0 then f == Damage(o + 3 + l)
              else if o + 4 + l + 12 < |raw| then f == Found(o, o + 4, o + 4 + l, 0, o + 4 + l + 12) else f == Damage(o)
            else f == Damage(o)
  {
    if o + 4 < |raw| {
      FieldIs(raw, o);
    }
    hide Little, U32;
  }

  /** The parts of code with scope: a total, a text's length, the text and the scope, which end where the total says. */
  predicate ScopeFits(raw: seq<byte>, o: nat) {
    && o + 14 < |raw|
    && var total, l := Little(raw[o..o + 4]), Little(raw[o + 4..o + 8]);
       && 14 <= total && o + total < |raw| && 1 <= l && l + 12 < total
       && l + 8 + Little(raw[o + 8 + l..o + 12 + l]) == total
  }

  lemma ScopeIff(raw: seq<byte>, at: nat, o: nat)
    requires 5 <= o <= |raw|
    ensures var f := StepAt(raw, 0x0f, at, o);
            if ScopeFits(raw, o) then
              var total, l := Little(raw[o..o + 4]), Little(raw[o + 4..o + 8]);
              f == Found(o, o + 4, o + 8, o + 8 + l, o + total)
            else f.Corrupt? && !f.unsupported
  {
    if o + 14 < |raw| {
      FieldIs(raw, o);
      FieldIs(raw, o + 4);
      var l := U32At(raw, o + 4);
      if o + 12 + l <= |raw| {
        FieldIs(raw, o + 8 + l);
      }
    }
    hide Little, U32;
  }

  /** All other type bytes. */
  lemma OtherIff(raw: seq<byte>, tag: byte, at: nat, o: nat)
    requires o <= |raw| && Width(tag) < 0 && tag !in {0x02, 0x03, 0x04, 0x05, 0x08, 0x0b, 0x0c, 0x0d, 0x0e, 0x0f}
    ensures StepAt(raw, tag, at, o) == Corrupt(o, o, tag != 0)
  {}
}
