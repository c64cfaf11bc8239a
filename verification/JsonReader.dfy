/** `bson_json_reader_bson_t` and the callbacks that update it, against the machine of `JsonMachine`. */
module JsonReader {
  import opened Bytes
  import opened BsonTree
  import opened BuilderRuns
  import opened JsonMachine
  import opened RegexOptions
  import opened JsonNesting
  import opened JsonTexts
  import Base64
  import Parser = DecimalParser
  import Range = DecimalRange
  import Utf8

  class Callbacks {
    var levels: seq<Level>
    var key: Option<seq<byte>>
    var readState: ReadState
    var bsonState: Keyword
    var bsonType: byte
    var buf0: seq<byte>
    var buf1: seq<byte>
    var data: Data
    var ops: seq<Op>

    function State(): Reader
      reads this
    {
      Reader(levels, key, readState, bsonState, bsonType, buf0, buf1, data, ops)
    }

    /** A new read into an empty document. */
    constructor ()
      ensures State() == START
    {
      levels, key, readState, bsonState, bsonType := [], None, REGULAR, OTHER, 0;
      buf0, buf1, data, ops := [], [], NO_DATA, [];
    }

    /** What a callback without loops of its own makes of the fields. */
    method Store(r: Reader)
      modifies this
      ensures State() == r
    {
      levels, key, readState, bsonState, bsonType := r.levels, r.key, r.state, r.field, r.bsonType;
      buf0, buf1, data, ops := r.buf0, r.buf1, r.data, r.ops;
    }

    /** The base64 text of a binary value. */
    method ParseBinaryData(val: CString)
      modifies this`data, this`buf0, this`readState
      ensures State() == BinaryData(old(State()), val)
    {
      hide Base64.Ascii, Base64.Length, Base64.Decode, Base64.ScanDigits;
      if !Base64.Ascii(val) {
        readState := UNMODELLED;
        return;
      }
      data := data.(hasBinary := true);
      var rmap := Base64.InitializeRmap();
      var binaryLen := Base64.PtonLen(val, rmap);
      if binaryLen < 0 {
        readState := ERROR;
        return;
      }
      buf0 := DecodeInto(val, binaryLen, rmap);
    }

    /** The decoded bytes of a base64 text, whatever its last bits are. */
    method DecodeInto(val: seq<byte>, binaryLen: nat, rmap: array<byte>) returns (bytes: seq<byte>)
      requires Base64.Ascii(val) && Base64.IsMap(rmap) && Base64.Length(val) == binaryLen
      ensures bytes == Base64.Decode(Base64.ScanDigits(val, []).digits).bytes
    {
      var target := new byte[binaryLen + 1](_ => 0);
      var n := Base64.PtonDo(val, target, rmap);
      bytes := target[..binaryLen];
    }

    /** Its subtype, or the operand of the query operator `$type`. */
    method ParseBinarySubtype(whole: seq<byte>)
      modifies this
      ensures State() == BinarySubtype(old(State()), whole)
    {
      hide ScanHex, UpToNul, Push, Append;
      var text := CutAtNul(whole);
      var scan := ScanSubtype(text);
      if scan.Scanned? {
        data := data.(hasSubtype := true, subtype := scan.value);
      } else {
        Store(BinarySubtype(State(), whole));
      }
    }

    /** `_bson_json_parse_binary_elem`. */
    method ParseBinaryElem(whole: seq<byte>)
      modifies this
      ensures State() == BinaryElem(old(State()), whole)
    {
      hide BinaryData, BinarySubtype;
      if bsonState == BINARY {
        var text := CutAtNul(whole);
        ParseBinaryData(text);
      } else if bsonState == TYPE {
        ParseBinarySubtype(whole);
      }
    }

    /** `_bson_json_read_string`. */
    method ReadString(val: seq<byte>)
      modifies this
      ensures State() == OnString(old(State()), val)
    {
      hide Fixup, TypedString, BinaryElem, AppendIfNormal, Utf8.Valid;
      Store(Fixup(State()));
      var valid := Utf8.Validate(val, true);
      if !valid {
        readState := ERROR;
      } else if readState == REGULAR {
        Store(AppendIfNormal(State(), Utf8(val)));
      } else if readState == BINARY_VALUES {
        ParseBinaryElem(val);
      } else if readState == IN_BSON_TYPE || readState == TIMESTAMP_VALUES || readState == REGEX_VALUES || readState == DATE_NUMBERLONG {
        ReadTypedString(val);
      } else {
        readState := ERROR;
      }
    }

    /** A number written as a string. */
    method ReadNumberString(val: seq<byte>)
      modifies this`data, this`readState
      ensures State() == NumberString(old(State()), val)
    {
      hide ParseInt64, Range.Outcome, UpToNul, CharsOf;
      match bsonState {
        case INT32 =>
          var ok, v64 := ReadInt64(val);
          if !ok || v64 < -INT32_MAX - 1 || v64 > INT32_MAX || readState != IN_BSON_TYPE {
            readState := ERROR;
          } else {
            data := data.(int32Value := v64);
          }
        case INT64 =>
          var ok, v64 := ReadInt64(val);
          if !ok {
            readState := ERROR;
          } else if readState == IN_BSON_TYPE {
            data := data.(int64Value := v64);
          } else if readState == DATE_NUMBERLONG {
            data := data.(date := v64);
          } else {
            readState := ERROR;
          }
        case DECIMAL128 =>
          ReadDecimal(val);
        case _ =>
          readState := ERROR;
      }
    }

    /** The result of the conversion is ignored: what is not a decimal128 becomes NaN. */
    method ReadDecimal(val: seq<byte>)
      requires bsonState == DECIMAL128
      modifies this`data, this`readState
      ensures State() == NumberString(old(State()), val)
    {
      hide Range.Outcome, UpToNul, CharsOf;
      var text := CutAtNul(val);
      var chars := CharsOf(text);
      if Range.Outcome(chars).Unspecified? {
        readState := UNMODELLED;
        return;
      }
      CharsTerminated(text);
      var ok, decimal := Parser.FromString(chars);
      if readState == IN_BSON_TYPE {
        data := data.(decimal := decimal);
      } else {
        readState := ERROR;
      }
    }

    /** The switch on `bson_state` inside it. */
    method ReadTypedString(val: seq<byte>)
      modifies this
      ensures State() == TypedString(old(State()), val)
    {
      hide NumberString, BinaryElem, OidFromText, Append, DbRefText;
      match bsonState {
        case OID =>
          if |val| != 24 {
            readState := ERROR;
          } else {
            var oid := ParseOid(val);
            data := data.(oid := oid);
          }
        case BINARY =>
          data := data.(binaryLegacy := true);
          ParseBinaryElem(val);
        case TYPE =>
          data := data.(binaryLegacy := true);
          ParseBinaryElem(val);
        case INT32 =>
          ReadNumberString(val);
        case INT64 =>
          ReadNumberString(val);
        case DECIMAL128 =>
          ReadNumberString(val);
        case _ =>
          Store(TypedString(State(), val));
      }
    }

    /** `_bson_json_save_map_key`, and the keys of a DBRef. */
    method SaveMapKey(val: seq<byte>)
      modifies this`key, this`levels, this`readState, this`bsonState
      ensures State() == PlainKey(old(State()), val)
    {
      hide KeywordOf, UpToNul;
      key := Some(val);
      if |levels| - 1 > 0 {
        var top := levels[|levels| - 1];
        var text := CutAtNul(val);
        var k := FindKeyword(text);
        match k {
          case REF =>
            levels := levels[|levels| - 1 := top.(hasRef := true)];
            readState := IN_BSON_TYPE;
            bsonState := REF;
          case ID =>
            levels := levels[|levels| - 1 := top.(hasId := true)];
          case DB =>
            readState := IN_BSON_TYPE;
            bsonState := DB;
          case _ =>
        }
      }
    }

    /** The first key of an object. */
    method ReadFirstKey(val: seq<byte>, k: Keyword)
      requires readState == IN_START_MAP && k == KeywordOf(val) && Utf8.Valid(val, true)
      modifies this
      ensures State() == OnMapKey(old(State()), val)
    {
      hide KeywordOf, UpToNul, Utf8.Valid, TypeKey, PlainKey, IsKnown, Push;
      if IsKnown(k) && |levels| - 1 >= 0 {
        Store(TypeKey(State().(state := IN_BSON_TYPE, bsonType := 0, data := NO_DATA), k));
      } else {
        readState := REGULAR;
        var pushed := Push(State(), false);
        if pushed.Pushed? {
          Store(pushed.reader);
          if readState == REGULAR {
            SaveMapKey(val);
          }
        }
      }
    }

    /** `_bson_json_read_map_key`. */
    method ReadMapKey(val: seq<byte>)
      modifies this
      ensures State() == OnMapKey(old(State()), val)
    {
      hide KeywordOf, UpToNul, Utf8.Valid, TypeKey, PlainKey, IsKnown, Push, Option1;
      var valid := Utf8.Validate(val, true);
      if !valid {
        readState := ERROR;
        return;
      }
      var k := FindKeyword(val);
      match readState {
        case IN_START_MAP =>
          ReadFirstKey(val, k);
        case IN_BSON_TYPE =>
          var text := CutAtNul(val);
          var w := FindKeyword(text);
          Store(TypeKey(State(), if w.TIMESTAMP? || w.REGULAR_EXPRESSION? || w.DBPOINTER? || w.CODE? || w.SCOPE? then w else k));
        case DATE_NUMBERLONG =>
          Store(if k == INT64 then Option1(State(), 0x09, INT64) else Fail(State()));
        case TIMESTAMP_VALUES =>
          Store(if k == T || k == I then Option1(State(), 0x11, k) else Fail(State()));
        case REGEX_VALUES =>
          Store(if k == PATTERN || k == PLAIN_OPTIONS then Option1(State(), 0x0b, k) else Fail(State()));
        case BINARY_VALUES =>
          Store(if k == BASE64 then Option1(State(), 0x05, BINARY) else if k == SUBTYPE then Option1(State(), 0x05, TYPE)
                else Fail(State()));
        case _ =>
          SaveMapKey(val);
      }
    }

    /** `_bson_json_read_append_regex`. */
    method AppendRegexValue()
      modifies this
      ensures State() == AppendRegex(old(State()))
    {
      hide UpToNul, SortedOptions, Append;
      if !data.hasPattern || !data.hasOptions {
        readState := ERROR;
        return;
      }
      var pattern := CutAtNul(buf0);
      var options := CutAtNul(buf1);
      options := SortOptions(options);
      Store(Append(State(), Regex(pattern, options)));
    }

    /** `_bson_json_read_end_map`. */
    method ReadEndMap()
      modifies this
      ensures State() == OnEndMap(old(State()))
    {
      hide Append, AppendRegex, AppendBinary, AppendTimestamp, EndDocument, Push;
      if key.Some? && readState == REGEX_VALUES {
        readState := REGEX_ENDMAP;
        AppendRegexValue();
      } else if key.Some? && readState == IN_BSON_TYPE && bsonType == 0x0b {
        readState := REGULAR;
        AppendRegexValue();
      } else {
        Store(OnEndMap(State()));
      }
    }

    /** The push and pop callbacks of the lexer, for a whole text; an error stops it. */
    method ReadEvents(events: seq<Event>)
      modifies this
      ensures State() == Feed(old(State()), events)
      ensures old(Sound(State())) ==> Sound(State())
    {
      if Sound(State()) {
        FeedSound(State(), events);
      }
      hide React, Sound;
      var i := 0;
      assert events[0..] == events;
      while i < |events| && readState != ERROR && readState != UNMODELLED
        invariant i <= |events| && Feed(old(State()), events) == Feed(State(), events[i..])
      {
        assert events[i..][0] == events[i] && events[i..][1..] == events[i + 1..];
        Callback(events[i]);
        i := i + 1;
      }
    }

    /** One callback; those that run no loop are the machine's steps. */
    method Callback(e: Event)
      modifies this
      ensures State() == React(old(State()), e)
    {
      hide OnString, OnMapKey, OnEndMap, OnStartMap, OnInteger;
      match e {
        case StartMap => Store(OnStartMap(State()));
        case EndMap => ReadEndMap();
        case StartArray => Store(OnStartArray(State()));
        case EndArray => Store(OnEndArray(State()));
        case MapKey(text) => ReadMapKey(text);
        case StringRead(text) => ReadString(text);
        case IntegerRead(n, negative) => Store(OnInteger(State(), n, negative));
        case BooleanRead(b) => Store(OnBoolean(State(), b));
        case NullRead => Store(OnNull(State()));
        case DoubleRead => Store(OnDouble(State()));
        case BadText => readState := ERROR;
      }
    }
  }

  lemma {:induction false} CharsTerminated(text: CString)
    ensures Parser.Terminated(CharsOf(text))
  {
    if text != [] {
      CharsTerminated(text[..|text| - 1]);
    }
  }
}
