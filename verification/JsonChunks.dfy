/** `bson_json_reader_read`: a text that arrives in buffers, and tokens that are gathered from several of them. */
module JsonChunks {
  import opened Bytes
  import opened JsonMachine
  import Lexer
  import Step = LexerStep
  import Strings = JsonString
  import Syntax = JsonSyntax
  import Tokens = LexerTokens

  /** What the reader's callbacks are given: the token's bytes from its opening quote on, without the closing one. */
  predicate IsText(text: seq<byte>, slot: Step.Slot, obj: seq<byte>) {
    slot.posBegin < slot.posCur <= |text| && obj == text[slot.posBegin..slot.posCur]
  }

  /** A string token without its quote, unescaped into a buffer of its own length. */
  method TokenText(obj: seq<byte>) returns (ok: bool, text: seq<byte>)
    requires obj != []
    ensures match Strings.UnescapeFrom(obj[1..], 0)
            case Ok(t) => ok && text == t
            case Err(_) => !ok
  {
    hide Strings.UnescapeFrom;
    var out := new byte[|obj| - 1];
    var failed, error, length := Strings.Unescape(obj[1..], out);
    if failed {
      return false, [];
    }
    return true, out[..length];
  }

  /** `_push_callback` and `_pop_callback`: `obj` is the text of the token that a pop closes. */
  method Dispatch(ghost text: seq<byte>, e: Step.Event, obj: seq<byte>) returns (events: seq<Event>)
    requires e.action == Step.POP && Tokens.IsToken(e.slot.kind) ==> IsText(text, e.slot, obj)
    ensures events == Syntax.Call(text, e)
  {
    hide Strings.UnescapeFrom;
    events := [];
    if e.action == Step.PUSH {
      if e.slot.kind == Step.Object {
        events := [StartMap];
      } else if e.slot.kind == Step.List {
        events := [StartArray];
      }
    } else if e.action == Step.POP {
      if e.slot.kind == Step.HKey || e.slot.kind == Step.String {
        assert obj[1..] == Syntax.Between(text, e.slot);
        var ok, t := TokenText(obj);
        events := [if !ok then BadText else if e.slot.kind == Step.HKey then MapKey(t) else StringRead(t)];
      } else if e.slot.kind == Step.Object {
        events := [EndMap];
      } else if e.slot.kind == Step.List {
        events := [EndArray];
      } else if e.slot.kind == Step.Special {
        var f := e.slot.flags;
        if f.float || f.exponent || f.nan || f.inf {
          events := [DoubleRead];
        } else if f.signed || f.unsigned {
          events := [IntegerRead(e.slot.nelem, f.signed)];
        } else if f.isTrue || f.isFalse {
          events := [BooleanRead(obj[0] == 0x74)];
        } else if f.isNull {
          events := [NullRead];
        }
      }
    }
  }

  /** A client that never stops the lexer. */
  const QUIET: Step.Client := (trace: seq<Step.Event>) => false

  class ChunkReader {
    const parser: Lexer.Parser
    var textPos: int
    var saved: seq<byte>
    var events: seq<Event>

    constructor ()
      ensures fresh(parser) && parser.State() == Lexer.Start(STACK_MAX)
      ensures textPos == -1 && saved == [] && events == []
    {
      parser := new Lexer.Parser(STACK_MAX);
      textPos, saved, events := -1, [], [];
    }

    /** The token that is open after some calls, and what has been saved of it from buffers before position `at`. */
    ghost predicate Tracks(text: seq<byte>, trace: seq<Step.Event>, at: nat)
      requires at <= |text|
      reads this
    {
      match Tokens.OpenAt(trace)
      case None => textPos == -1 && saved == []
      case Some(b) => textPos == b && saved == if b < at then text[b..at] else []
    }

    /** Between buffers: `at` bytes of the text have been lexed, and every call so far has been handed on. */
    ghost predicate Valid(text: seq<byte>, at: nat)
      reads this, parser
    {
      && at <= |text|
      && parser.State() == Lexer.Run(Lexer.Start(STACK_MAX), QUIET, text[..at])
      && events == Syntax.Calls(text, parser.trace)
      && (parser.status.Running? ==> parser.pos == at && Tokens.Settled(parser.State()) && Tracks(text, parser.trace, at))
    }

    /** `_get_json_text`: from the buffer if the token began there, else what was saved and the buffer's first bytes. */
    method GetJsonText(slot: Step.Slot, chunk: seq<byte>, at: nat, ghost text: seq<byte>, ghost trace: seq<Step.Event>) returns (obj: seq<byte>)
      requires at + |chunk| <= |text| && chunk == text[at..at + |chunk|] && Tracks(text, trace, at)
      requires Tokens.OpenAt(trace) == Tokens.Some(slot.posBegin)
      requires slot.posBegin < slot.posCur && at <= slot.posCur < at + |chunk|
      ensures IsText(text, slot, obj)
    {
      hide Tokens.OpenAt;
      var length, available := slot.posCur - slot.posBegin, slot.posCur - at;
      if length <= available {
        obj := chunk[available - length..available];
        assert obj == text[slot.posBegin..slot.posCur];
      } else {
        obj := saved + chunk[..available];
        assert chunk[..available] == text[at..slot.posCur];
        assert text[slot.posBegin..at] + text[at..slot.posCur] == text[slot.posBegin..slot.posCur];
      }
    }

    /** One call of the lexer while it is fed the buffer. */
    method Handle(e: Step.Event, chunk: seq<byte>, at: nat, ghost text: seq<byte>, ghost before: seq<Step.Event>)
      requires at + |chunk| <= |text| && chunk == text[at..at + |chunk|] && Tracks(text, before, at)
      requires Tokens.Within(before, e, at, at + |chunk|)
      modifies this
      ensures Tracks(text, before + [e], at)
      ensures events == old(events) + Syntax.Call(text, e)
    {
      hide Tokens.OpenAt;
      Tokens.OpenAfter(before, e);
      var obj := [];
      if e.action == Step.POP && Tokens.IsToken(e.slot.kind) {
        obj := GetJsonText(e.slot, chunk, at, text, before);
      }
      var more := Dispatch(text, e, obj);
      events := events + more;
      if e.action == Step.PUSH && Tokens.IsToken(e.slot.kind) {
        textPos := e.slot.posBegin;
      } else if e.action == Step.POP {
        textPos, saved := -1, [];
      }
    }

    /** One buffer: feed the lexer, hand on its calls, and save what there is of a token left open. */
    method ReadChunk(chunk: seq<byte>, ghost text: seq<byte>, at: nat)
      requires Valid(text, at) && parser.status.Running? && at + |chunk| <= |text| && chunk == text[at..at + |chunk|]
      modifies this, parser
      ensures Valid(text, at + |chunk|)
    {
      hide Lexer.Run, Syntax.Calls, Tokens.OpenAt, Tokens.Within, Tokens.Tracked;
      ghost var start := Lexer.Start(STACK_MAX);
      ghost var s, was := parser.State(), parser.trace;
      var k := |parser.trace|;
      parser.Feed(QUIET, chunk);
      assert text[..at + |chunk|] == text[..at] + chunk;
      Lexer.RunConcat(start, QUIET, text[..at], chunk);
      Tokens.RunPlaced(s, QUIET, chunk);
      assert parser.trace[..k] == was;
      while k < |parser.trace|
        invariant |was| <= k <= |parser.trace| && parser.State() == Lexer.Run(s, QUIET, chunk)
        invariant events == Syntax.Calls(text, parser.trace[..k]) && Tracks(text, parser.trace[..k], at)
      {
        assert Tokens.Within(parser.trace[..k], parser.trace[k], at, at + |chunk|);
        CallsNext(text, parser.trace, k);
        Handle(parser.trace[k], chunk, at, text, parser.trace[..k]);
        k := k + 1;
      }
      assert parser.trace[..k] == parser.trace;
      if parser.status.Running? && textPos != -1 && textPos < parser.pos {
        SaveOpenText(chunk, text, at);
      }
    }

    /** The part of an open token that lies in this buffer. */
    method SaveOpenText(chunk: seq<byte>, ghost text: seq<byte>, at: nat)
      requires at + |chunk| <= |text| && chunk == text[at..at + |chunk|] && Tracks(text, parser.trace, at)
      requires 0 <= textPos < parser.pos == at + |chunk|
      modifies this`saved
      ensures Tracks(text, parser.trace, at + |chunk|)
    {
      hide Tokens.OpenAt;
      var accum := if parser.pos - textPos < |chunk| then parser.pos - textPos else |chunk|;
      var offset := if textPos - at > 0 then textPos - at else 0;
      saved := saved + chunk[offset..offset + accum];
    }
  }

  lemma CallsNext(text: seq<byte>, trace: seq<Step.Event>, k: nat)
    requires k < |trace|
    ensures trace[..k + 1] == trace[..k] + [trace[k]]
    ensures Syntax.Calls(text, trace[..k + 1]) == Syntax.Calls(text, trace[..k]) + Syntax.Call(text, trace[k])
  {
    hide Syntax.Call;
    assert trace[..k + 1][..k] == trace[..k];
  }

  /**
   A whole text, `size` bytes at a time: wherever the cuts fall, the lexer runs as on the whole text, and every
   token reaches the reader with its own text.
   */
  method LexText(text: seq<byte>, size: nat) returns (lex: Step.Lex, events: seq<Event>)
    requires size > 0
    ensures lex == Lexer.Run(Lexer.Start(STACK_MAX), QUIET, text)
    ensures events == Syntax.Calls(text, lex.trace)
  {
    hide Lexer.Run, Syntax.Calls, Tokens.Tracked;
    var reader := new ChunkReader();
    var at := 0;
    Started(text);
    while at < |text| && reader.parser.status.Running?
      invariant reader.Valid(text, at) && fresh(reader) && fresh(reader.parser)
    {
      var end := if |text| - at < size then |text| else at + size;
      reader.ReadChunk(text[at..end], text, at);
      at := end;
    }
    assert text[..|text|] == text;
    if !reader.parser.status.Running? {
      Lexer.RunHalted(Lexer.Start(STACK_MAX), QUIET, text, at);
    }
    return reader.parser.State(), reader.events;
  }

  lemma Started(text: seq<byte>)
    ensures Lexer.Run(Lexer.Start(STACK_MAX), QUIET, text[..0]) == Lexer.Start(STACK_MAX)
    ensures Tokens.Settled(Lexer.Start(STACK_MAX)) && Syntax.Calls(text, []) == []
  {
    Lexer.EmptyRun(Lexer.Start(STACK_MAX), QUIET, text);
  }
}
