/** The reader of one document as the object callers hold: `Cursor` is `bson_iter_t`. */
module Iter {
  import opened Bytes
  import opened BsonTree
  import opened BsonDecode
  import opened BsonFind

  /** Damage is always reported at a nonzero offset, so a zero `errOff` after a walk means it ended cleanly. */
  lemma DamageIsNonzero(raw: seq<byte>, at: nat)
    requires at >= 4 && Decode(raw, at).Corrupt?
    ensures Decode(raw, at).err >= 4 && Decode(raw, at).orElse >= 4
  {}

  /** `bson_iter_t`.  `live` is false once the C code has set its `raw` pointer to NULL. */
  class Cursor {
    var raw: seq<byte>
    var live: bool
    var len: nat
    var off: nat
    var typ: nat
    var key: nat
    var d1: nat
    var d2: nat
    var d3: nat
    var d4: nat
    var nextOff: nat
    var errOff: nat

    constructor ()
      ensures !live && len == 0 && nextOff == 0 && errOff == 0
    {
      raw, live, len, off, typ, key, nextOff, errOff := [], false, 0, 0, 0, 0, 0, 0;
      d1, d2, d3, d4 := 0, 0, 0, 0;
    }

    predicate Valid()
      reads this
    {
      live ==> |raw| == len <= INT32_MAX && nextOff >= 4 && errOff == 0
    }

    function Fields(): Step
      reads this
    {
      Found(d1, d2, d3, d4, nextOff)
    }

    method Start(data: seq<byte>)
      requires |data| <= INT32_MAX
      modifies this
      ensures Valid() && live && raw == data && nextOff == 4
    {
      raw, live, len := data, true, |data|;
      off, typ, key, d1, d2, d3, d4 := 0, 0, 0, 0, 0, 0, 0;
      nextOff, errOff := 4, 0;
    }

    /** `bson_iter_init_from_data`. */
    method InitFromData(data: seq<byte>) returns (ok: bool)
      modifies this
      ensures Valid() && live == ok
      ensures ok <==> 5 <= |data| <= INT32_MAX && U32At(data, 0) == |data| && data[|data| - 1] == 0
      ensures ok ==> raw == data && nextOff == 4
    {
      if |data| < 5 || |data| > INT32_MAX || U32At(data, 0) != |data| || data[|data| - 1] != 0 {
        Clear();
        return false;
      }
      Start(data);
      return true;
    }

    method Clear()
      modifies this
      ensures Valid() && !live
    {
      raw, live, len, off, typ, key, nextOff, errOff := [], false, 0, 0, 0, 0, 0, 0;
      d1, d2, d3, d4 := 0, 0, 0, 0;
    }

    /** The `mark_invalid` exit. */
    method Invalidate()
      modifies `live, `len, `nextOff
      ensures !live && len == 0 && nextOff == 0
    {
      live, len, nextOff := false, 0, 0;
    }

    method ScanNul(from: nat) returns (o: nat)
      requires from <= |raw|
      ensures o == FindNul(raw, from)
    {
      o := from;
      while o < |raw|
        invariant from <= o <= |raw| && FindNul(raw, o) == FindNul(raw, from)
      {
        if raw[o] == 0 {
          break;
        }
        o := o + 1;
      }
    }

    ghost predicate Agrees(ok: bool, step: Step)
      reads this
    {
      if ok then step.Found? && Fields() == step else step.Corrupt? && errOff in {step.err, step.orElse}
    }

    /** The state `_bson_iter_next_internal` is in when it starts on the payload at `o`. */
    ghost predicate AtPayload(o: nat)
      reads this
    {
      live && |raw| == len <= INT32_MAX && o <= len && d1 == o && d2 == d3 == d4 == 0 && nextOff == typ
    }

    method Fail(at: nat) returns (ok: bool)
      modifies `errOff
      ensures !ok && errOff == at
    {
      errOff := at;
      ok := false;
    }

    method FillString(o: nat) returns (ok: bool)
      requires AtPayload(o)
      modifies `d2, `nextOff, `errOff
      ensures Agrees(ok, DecodeString(raw, o))
    {
      if o + 4 >= len {
        ok := Fail(o);
        return;
      }
      d2 := o + 4;
      var l := U32At(raw, d1);
      if l > len - (o + 4) {
        ok := Fail(o);
        return;
      }
      nextOff := o + 4 + l;
      if l == 0 || nextOff >= len {
        ok := Fail(o);
        return;
      }
      if raw[d2 + l - 1] != 0 {
        ok := Fail(o + 4 + l - 1);
        return;
      }
      ok := true;
    }

    /** The inner length may be read past the end; the model then lets it be anything. */
    method FillBinary(o: nat) returns (ok: bool)
      requires AtPayload(o)
      modifies `d2, `d3, `nextOff, `errOff
      ensures Agrees(ok, Bounded(raw, DecodeBinary(raw, o), o))
    {
      if o + 4 >= len {
        ok := Fail(o);
        return;
      }
      d2, d3 := o + 4, o + 5;
      var l := U32At(raw, d1);
      if l >= len - o {
        ok := Fail(o);
        return;
      }
      if raw[d2] == 2 {
        if l < 4 {
          ok := Fail(o);
          return;
        }
        var inner: uint32 := *;
        if d3 + 4 <= len {
          inner := U32At(raw, d3);
        }
        if inner + 4 != l {
          ok := Fail(d3);
          return;
        }
      }
      nextOff := o + 5 + l;
      if nextOff >= len {
        ok := Fail(o);
        return;
      }
      ok := true;
    }

    method FillDocument(o: nat) returns (ok: bool)
      requires AtPayload(o)
      modifies `nextOff, `errOff
      ensures Agrees(ok, DecodeDocument(raw, o))
    {
      if o + 4 >= len {
        ok := Fail(o);
        return;
      }
      var l := U32At(raw, d1);
      if l > len || l > len - o {
        ok := Fail(o);
        return;
      }
      nextOff := o + l;
      ok := true;
    }

    method FillRegex(start: nat) returns (ok: bool)
      requires AtPayload(start)
      modifies `d2, `nextOff, `errOff
      ensures Agrees(ok, DecodeRegex(raw, typ, start))
    {
      var o := ScanNul(start);
      if o == len {
        ok := Fail(nextOff);
        return;
      }
      o := o + 1;
      d2 := o;
      o := ScanNul(o);
      if o == len {
        ok := Fail(nextOff);
        return;
      }
      nextOff := o + 1;
      ok := true;
    }

    method FillDbPointer(o: nat) returns (ok: bool)
      requires AtPayload(o)
      modifies `d2, `d3, `nextOff, `errOff
      ensures Agrees(ok, DecodeDbPointer(raw, o))
    {
      if o + 4 >= len {
        ok := Fail(o);
        return;
      }
      d2 := o + 4;
      var l := U32At(raw, d1);
      if l == 0 || l > len - o - 4 {
        ok := Fail(o);
        return;
      }
      if raw[o + l + 3] != 0 {
        ok := Fail(o + l + 3);
        return;
      }
      d3, nextOff := o + 4 + l, o + 4 + l + 12;
      ok := true;
    }

    method FillCodeWithScope(o: nat) returns (ok: bool)
      requires AtPayload(o)
      modifies `d2, `d3, `d4, `nextOff, `errOff
      ensures Agrees(ok, DecodeCodeWithScope(raw, o))
    {
      if len < 19 || o + 14 >= len {
        ok := Fail(o);
        return;
      }
      d2, d3 := o + 4, o + 8;
      var l := U32At(raw, d1);
      if l < 14 || l >= len - o {
        ok := Fail(o);
        return;
      }
      nextOff := o + l;
      assert nextOff < len; // so the bound check that follows in the source never fires
      l := U32At(raw, d2);
      if l == 0 || l >= len - o - 4 - 4 {
        ok := Fail(o);
        return;
      }
      if o + 4 + 4 + l + 4 >= nextOff {
        ok := Fail(o + 4);
        return;
      }
      d4 := o + 4 + 4 + l;
      if o + 4 + 4 + l + U32At(raw, d4) != nextOff {
        ok := Fail(o + 4 + 4 + l);
        return;
      }
      ok := true;
    }

    /** The `switch` of `_bson_iter_next_internal` and the bound check after it. */
    method Fill(o: nat) returns (ok: bool, unsupported: bool)
      requires AtPayload(o) && typ < len
      modifies `d1, `d2, `d3, `d4, `nextOff, `errOff
      ensures var step := Bounded(raw, DecodePayload(raw, raw[typ], typ, o), o);
              Agrees(ok, step) && (step.Corrupt? ==> unsupported == step.unsupported) && (ok ==> !unsupported)
    {
      hide DecodeString, DecodeBinary, DecodeDocument, DecodeRegex, DecodeDbPointer, DecodeCodeWithScope, FindNul;
      unsupported := false;
      ok := true;
      match raw[typ] {
        case 0x09 | 0x01 | 0x12 | 0x11 => nextOff := o + 8;
        case 0x0d | 0x0e | 0x02 => ok := FillString(o);
        case 0x05 => ok := FillBinary(o);
        case 0x03 | 0x04 => ok := FillDocument(o);
        case 0x07 => nextOff := o + 12;
        case 0x08 =>
          if d1 >= len || (raw[d1] != 0 && raw[d1] != 1) {
            ok := Fail(o);
          } else {
            nextOff := o + 1;
          }
        case 0x0b => ok := FillRegex(o);
        case 0x0c => ok := FillDbPointer(o);
        case 0x0f => ok := FillCodeWithScope(o);
        case 0x10 => nextOff := o + 4;
        case 0x13 => nextOff := o + 16;
        case 0x7f | 0xff | 0x0a | 0x06 => d1, nextOff := TWO_32 - 1, o;
        case 0x00 => ok := Fail(o);
        case _ =>
          unsupported := true;
          ok := Fail(o);
      }
      if ok && nextOff >= len {
        ok := Fail(o);
      }
    }

    /** `_bson_iter_next_internal`: one step over any bytes does what `Decode` says. */
    method Next() returns (ok: bool, unsupported: bool)
      requires Valid()
      modifies this
      ensures Valid() && ok == live && raw == old(raw)
      ensures !old(live) ==> !ok && !unsupported && errOff == old(errOff)
      ensures old(live) ==>
        var step := Decode(raw, old(nextOff));
        && ok == step.Found?
        && (ok ==> Fields() == step && off == typ == old(nextOff) && key == off + 1)
        && (step.End? ==> errOff == 0 && !unsupported)
        && (step.Corrupt? ==> errOff in {step.err, step.orElse} && errOff != 0 && unsupported == step.unsupported)
    {
      hide DecodePayload, FindNul, FieldsInside;
      unsupported := false;
      if !live {
        return false, unsupported;
      }
      off := nextOff;
      typ, key := off, off + 1;
      d1, d2, d3, d4 := 0, 0, 0, 0;
      if off + 1 >= len {
        Invalidate();
        return false, unsupported;
      }
      var o := ScanNul(off + 1);
      if o == len {
        Invalidate();
        return false, unsupported;
      }
      o := o + 1;
      d1 := o;
      ok, unsupported := Fill(o);
      if ok {
        DecodeStaysInside(raw, off);
        errOff := 0;
      } else {
        DamageIsNonzero(raw, off);
        Invalidate();
      }
    }

    /** `_bson_iter_find_with_len`: `name` is the first `keylen` bytes of the caller's key. */
    method FindWithLen(name: CString) returns (found: bool)
      requires Valid()
      modifies this
      ensures Valid() && raw == old(raw)
      ensures found == (name != [] && old(live) && FindKey(raw, old(nextOff), name).Some?)
      ensures found ==> live && off == typ == FindKey(raw, old(nextOff), name).value && Fields() == Decode(raw, off)
    {
      hide Decode, FindKey, CStringAt, FindNul;
      if name == [] {
        return false;
      }
      var ok, unsupported := Next();
      FindKeyStep(raw, old(nextOff), name);
      while ok
        invariant Valid() && ok == live && raw == old(raw)
        invariant ok ==> Fields() == Decode(raw, off) && off == typ && key == off + 1 && off < nextOff < len
        invariant ok ==> FindKey(raw, off, name) == FindKey(raw, old(nextOff), name)
        invariant !ok ==> !old(live) || FindKey(raw, old(nextOff), name) == None
        decreases ok, if ok then len - nextOff else 0
      {
        FindKeyStep(raw, off, name);
        var ikey := CStringAt(raw, key);
        if name == ikey {
          return true;
        }
        ghost var at := nextOff;
        ok, unsupported := Next();
        FindKeyStep(raw, at, name);
      }
      return false;
    }

    /** `bson_iter_recurse`. */
    method Recurse() returns (ok: bool, child: Cursor)
      requires Valid() && live && typ < len && Fields() == Decode(raw, typ)
      ensures fresh(child) && child.Valid()
      ensures ok == (raw[typ] == 0x03 || raw[typ] == 0x04)
      ensures ok ==> child.live && child.raw == ChildAt(raw, typ) && child.nextOff == 4
    {
      hide Decode;
      child := new Cursor();
      if raw[typ] != 0x03 && raw[typ] != 0x04 {
        return false, child;
      }
      DecodeStaysInside(raw, typ);
      child.Start(raw[d1..d1 + U32At(raw, d1)]);
      return true, child;
    }

    /** `bson_iter_find_descendant`: walks the bytes the way `Descend` does. */
    method FindDescendant(dotkey: CString) returns (found: bool, descendant: Cursor)
      requires Valid() && live
      modifies this
      ensures var r := Descend(old(raw), old(nextOff), dotkey);
              && found == r.Some?
              && (found ==> descendant.Valid() && descendant.live
                            && descendant.raw == r.value.0 && descendant.typ == r.value.1
                            && descendant.Fields() == Decode(descendant.raw, descendant.typ))
      ensures descendant == this || fresh(descendant)
      decreases |dotkey|
    {
      hide Decode, FindKey, ChildAt, FieldsInside;
      descendant := this;
      ghost var doc, at := raw, nextOff;
      var sublen := DotOrEnd(dotkey);
      found := FindWithLen(dotkey[..sublen]);
      if !found {
        return;
      }
      FoundIsStep(doc, at, dotkey[..sublen]);
      if sublen == |dotkey| {
        return;
      }
      var ok, tmp := Recurse();
      if !ok {
        return false, this;
      }
      found, descendant := tmp.FindDescendant(dotkey[sublen + 1..]);
    }
  }

  /** The first dot, or the string's length. */
  method DotOrEnd(dotkey: CString) returns (i: nat)
    ensures i == IndexOfDot(dotkey)
  {
    i := 0;
    while i < |dotkey| && dotkey[i] != DOT
      invariant i <= |dotkey| && IndexOfDot(dotkey) == i + IndexOfDot(dotkey[i..])
    {
      assert dotkey[i..][1..] == dotkey[i + 1..];
      i := i + 1;
    }
  }
}
