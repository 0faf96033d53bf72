/**
The two ends of a text/event-stream.

The writer's side is the frame that the server builds for one message or one keep-alive ping.
The reader's side is the event stream interpretation of sections 9.2.5 and 9.2.6 of the WHATWG
HTML Living Standard, as a state machine over single bytes, so that it cannot depend on how the
network cuts the stream into pieces.
*/
module EventSource {
  import opened Common

  // ----- the writer: one frame -----

  /** The pieces between newlines; the piece after the last newline counts only if it is not empty. */
  function Tokens(s: string): (ts: seq<string>)
    ensures ts != []
    decreases |s|
  {
    var i := IndexOf(s, '\n');
    if i == |s| then [s]
    else if i + 1 == |s| then [s[..i]]
    else [s[..i]] + Tokens(s[i + 1..])
  }

  function FieldLines(field: string, tokens: seq<string>): string {
    if tokens == [] then "" else field + ": " + tokens[0] + "\n" + FieldLines(field, tokens[1..])
  }

  function Frame(field: string, text: string): string {
    FieldLines(field, Tokens(text)) + "\n"
  }

  lemma {:induction false} FieldLinesSnoc(field: string, tokens: seq<string>, t: string)
    ensures FieldLines(field, tokens + [t]) == FieldLines(field, tokens) + (field + ": " + t + "\n")
  {
    if tokens == [] {
      assert tokens + [t] == [t];
    } else {
      assert (tokens + [t])[1..] == tokens[1..] + [t];
      FieldLinesSnoc(field, tokens[1..], t);
    }
  }

  /** The loop of EventStream::enqueue: one field line per token, then an empty line. */
  method BuildFrame(field: string, text: string) returns (buf: string)
    ensures buf == Frame(field, text)
  {
    buf := "";
    var rest := text;
    var more := true;
    ghost var done: seq<string> := [];
    while more
      invariant buf == FieldLines(field, done)
      invariant if more then Tokens(text) == done + Tokens(rest) else Tokens(text) == done
      decreases more, |rest|
    {
      var i := IndexOf(rest, '\n');
      FieldLinesSnoc(field, done, rest[..i]);
      buf := buf + (field + ": " + rest[..i] + "\n");
      done := done + [rest[..i]];
      if i < |rest| && i + 1 < |rest| {
        rest := rest[i + 1..];
      } else {
        assert rest[..|rest|] == rest;
        more := false;
      }
    }
    buf := buf + "\n";
  }

  /** A message as the reader gets it back: at most one trailing newline is lost. */
  function WithoutFinalNewline(s: string): string {
    if s != "" && s[|s| - 1] == '\n' then s[..|s| - 1] else s
  }

  lemma StripAfter(a: string, b: string)
    requires b != ""
    ensures WithoutFinalNewline(a + b) == a + WithoutFinalNewline(b)
  {
    assert (a + b)[..|a + b| - 1] == a + b[..|b| - 1];
  }

  lemma StripNothing(s: string)
    requires '\n' !in s
    ensures WithoutFinalNewline(s) == s
  {
  }

  lemma TokensJoinMore(first: string, rest: string)
    requires '\n' !in first && rest != "" && Join(Tokens(rest), "\n") == WithoutFinalNewline(rest)
    ensures Join(Tokens(first + ['\n'] + rest), "\n") == WithoutFinalNewline(first + ['\n'] + rest)
  {
    var s := first + ['\n'] + rest;
    IndexOfAfter(first, '\n', rest);
    assert s[..|first|] == first && s[|first| + 1..] == rest;
    calc {
      Join(Tokens(s), "\n");
      Join([first] + Tokens(rest), "\n");
      { JoinCons(first, Tokens(rest), "\n"); }
      first + "\n" + WithoutFinalNewline(rest);
      { StripAfter(first + "\n", rest); }
      WithoutFinalNewline(s);
    }
  }

  lemma TokensJoinLast(s: string)
    requires IndexOf(s, '\n') + 1 >= |s|
    ensures Join(Tokens(s), "\n") == WithoutFinalNewline(s)
  {
    var i := IndexOf(s, '\n');
    if i == |s| {
      assert s[..i] == s;
      StripNothing(s);
    }
  }

  lemma {:induction false} TokensJoin(s: string)
    ensures Join(Tokens(s), "\n") == WithoutFinalNewline(s)
    decreases |s|
  {
    var i := IndexOf(s, '\n');
    if i + 1 < |s| {
      TokensJoin(s[i + 1..]);
      TokensJoinMore(s[..i], s[i + 1..]);
      assert s == s[..i] + ['\n'] + s[i + 1..];
    } else {
      TokensJoinLast(s);
    }
  }

  lemma {:induction false} TokensAreClean(s: string, t: string)
    requires t in Tokens(s)
    ensures '\n' !in t
    ensures '\r' !in s ==> '\r' !in t
    decreases |s|
  {
    var i := IndexOf(s, '\n');
    if i == |s| || i + 1 == |s| || t == s[..i] {
    } else {
      TokensAreClean(s[i + 1..], t);
    }
  }

  // ----- the reader -----

  datatype Message = Message(eventType: string, data: string, lastId: string)

  datatype Reader = Reader(
    line: string, afterCr: bool,
    data: string, eventType: string, lastId: string,
    messages: seq<Message>)

  const FRESH := Reader("", false, "", "", "", [])

  function Dispatch(r: Reader): Reader {
    if r.data == "" then r.(eventType := "")
    else
      var name := if r.eventType == "" then "message" else r.eventType;
      r.(data := "", eventType := "",
         messages := r.messages + [Message(name, WithoutFinalNewline(r.data), r.lastId)])
  }

  function ProcessField(r: Reader, field: string, value: string): Reader {
    if field == "data" then r.(data := r.data + value + "\n")
    else if field == "event" then r.(eventType := value)
    else if field == "id" && '\0' !in value then r.(lastId := value)
    else r
  }

  function ProcessLine(r: Reader, line: string): Reader {
    if line == "" then Dispatch(r)
    else
      var i := IndexOf(line, ':');
      if i == 0 then r
      else if i == |line| then ProcessField(r, line, "")
      else
        var value := line[i + 1..];
        ProcessField(r, line[..i], if value != "" && value[0] == ' ' then value[1..] else value)
  }

  function Read(r: Reader, c: char): Reader {
    if c == '\n' && r.afterCr then r.(afterCr := false)
    else if c == '\n' || c == '\r' then ProcessLine(r.(line := "", afterCr := c == '\r'), r.line)
    else r.(line := r.line + [c], afterCr := false)
  }

  function Feed(r: Reader, bytes: string): Reader
    decreases |bytes|
  {
    if bytes == "" then r else Feed(Read(r, bytes[0]), bytes[1..])
  }

  /** Feeding the network's chunks one after the other. */
  function FeedChunks(r: Reader, chunks: seq<string>): Reader
    decreases |chunks|
  {
    if chunks == [] then r else FeedChunks(Feed(r, chunks[0]), chunks[1..])
  }

  lemma {:induction false} FeedAppend(r: Reader, a: string, b: string)
    ensures Feed(r, a + b) == Feed(Feed(r, a), b)
    decreases |a|
  {
    if a == "" {
      assert a + b == b;
    } else {
      assert (a + b)[1..] == a[1..] + b;
      FeedAppend(Read(r, a[0]), a[1..], b);
    }
  }

  /** The reader's result does not depend on the chunking. */
  lemma {:induction false} ChunkingIsIrrelevant(r: Reader, chunks: seq<string>)
    ensures FeedChunks(r, chunks) == Feed(r, Concat(chunks))
    decreases |chunks|
  {
    if chunks == [] {
    } else {
      FeedAppend(r, chunks[0], Concat(chunks[1..]));
      ChunkingIsIrrelevant(Feed(r, chunks[0]), chunks[1..]);
    }
  }

  /** Messages already dispatched are never taken back. */
  lemma {:induction false} MessagesGrow(r: Reader, bytes: string)
    ensures r.messages <= Feed(r, bytes).messages
    decreases |bytes|
  {
    if bytes == "" {
    } else {
      MessagesGrow(Read(r, bytes[0]), bytes[1..]);
    }
  }

  // ----- what the reader makes of a frame -----

  /** Nothing of an unfinished line or event is pending. */
  predicate Idle(r: Reader) {
    r.line == "" && !r.afterCr && r.data == "" && r.eventType == ""
  }

  lemma {:induction false} FeedPlain(r: Reader, text: string)
    requires '\n' !in text && '\r' !in text
    ensures Feed(r, text) == if text == "" then r else r.(line := r.line + text, afterCr := false)
    decreases |text|
  {
    if text == "" {
    } else {
      var r' := Read(r, text[0]);
      FeedPlain(r', text[1..]);
      assert r.line + text == r.line + [text[0]] + text[1..];
    }
  }

  lemma FeedLine(r: Reader, line: string)
    requires r.line == "" && !r.afterCr
    requires '\n' !in line && '\r' !in line
    ensures Feed(r, line + "\n") == ProcessLine(r, line)
  {
    FeedAppend(r, line, "\n");
    FeedPlain(r, line);
    var r' := Feed(r, line);
    assert r'.line == line;
    assert Feed(r', "\n") == Feed(Read(r', '\n'), "");
    assert r'.(line := "", afterCr := false) == r;
  }

  lemma DataLine(r: Reader, value: string)
    ensures ProcessLine(r, "data: " + value) == r.(data := r.data + value + "\n")
  {
    var line := "data: " + value;
    assert line == "data" + [':'] + (" " + value);
    IndexOfAfter("data", ':', " " + value);
    assert line[..4] == "data" && line[5..] == " " + value;
    assert line[5..][1..] == value;
  }

  /** All the data lines of a frame: the values pile up in the data buffer. */
  lemma {:induction false} FeedDataLines(r: Reader, tokens: seq<string>)
    requires r.line == "" && !r.afterCr
    requires forall t | t in tokens :: '\n' !in t && '\r' !in t
    ensures Feed(r, FieldLines("data", tokens)) ==
            r.(data := r.data + if tokens == [] then "" else Join(tokens, "\n") + "\n")
    decreases |tokens|
  {
    if tokens == [] {
      assert r.data + "" == r.data;
    } else {
      var line := "data: " + tokens[0];
      var rest := FieldLines("data", tokens[1..]);
      assert FieldLines("data", tokens) == line + "\n" + rest by {
        assert "data" + ": " + tokens[0] + "\n" == line + "\n";
      }
      FeedAppend(r, line + "\n", rest);
      FeedLine(r, line);
      DataLine(r, tokens[0]);
      var r' := Feed(r, line + "\n");
      FeedDataLines(r', tokens[1..]);
      if |tokens| > 1 {
        assert r.data + tokens[0] + "\n" + (Join(tokens[1..], "\n") + "\n") == r.data + (Join(tokens, "\n") + "\n");
      } else {
        assert r.data + tokens[0] + "\n" + "" == r.data + (Join(tokens, "\n") + "\n");
      }
    }
  }

  /** Before its last byte the frame of a message dispatches nothing; with it, exactly that message. */
  lemma FrameOfMessage(r: Reader, text: string)
    requires Idle(r) && '\r' !in text
    ensures Feed(r, FieldLines("data", Tokens(text))).messages == r.messages
    ensures Feed(r, Frame("data", text)) ==
            r.(messages := r.messages + [Message("message", WithoutFinalNewline(text), r.lastId)])
  {
    var ts := Tokens(text);
    forall t | t in ts ensures '\n' !in t && '\r' !in t { TokensAreClean(text, t); }
    FeedDataLines(r, ts);
    TokensJoin(text);
    FeedAppend(r, FieldLines("data", ts), "\n");
    var r' := Feed(r, FieldLines("data", ts));
    assert r'.data == WithoutFinalNewline(text) + "\n";
    assert Feed(r', "\n") == Feed(Read(r', '\n'), "");
    assert WithoutFinalNewline(r'.data) == WithoutFinalNewline(text);
  }

  /** A keep-alive ping is a comment: the reader is left exactly as it was. */
  lemma FrameOfPing(r: Reader)
    requires Idle(r)
    ensures Frame("", "\n") == ": \n\n"
    ensures Feed(r, FieldLines("", Tokens("\n"))).messages == r.messages
    ensures Feed(r, Frame("", "\n")) == r
  {
    assert IndexOf("\n", '\n') == 0;
    assert Tokens("\n") == [""];
    assert FieldLines("", [""]) == "" + ": " + "" + "\n" + FieldLines("", []);
    assert FieldLines("", [""]) == ": " + "\n";
    FeedLine(r, ": ");
    assert IndexOf(": ", ':') == 0;
    FeedAppend(r, ": " + "\n", "\n");
    assert Frame("", "\n") == ": " + "\n" + "\n" == ": \n\n";
    assert Feed(r, "\n") == Feed(Read(r, '\n'), "");
  }

  // ----- carriage returns -----

  /** No carriage return ever reaches a message or a buffer of the reader. */
  predicate NoCr(r: Reader) {
    '\r' !in r.line && '\r' !in r.data && forall m | m in r.messages :: '\r' !in m.data
  }

  lemma {:induction false} ReaderNeverShowsCr(r: Reader, bytes: string)
    requires NoCr(r)
    ensures NoCr(Feed(r, bytes))
    decreases |bytes|
  {
    if bytes == "" {
    } else {
      ReaderNeverShowsCr(Read(r, bytes[0]), bytes[1..]);
    }
  }

  /** The frame of a message is read back as that message exactly when the message has no carriage return. */
  lemma FrameIsFaithfulIffNoCr(text: string)
    ensures Feed(FRESH, Frame("data", text)).messages == [Message("message", WithoutFinalNewline(text), "")]
            <==> '\r' !in text
  {
    if '\r' !in text {
      FrameOfMessage(FRESH, text);
    } else {
      ReaderNeverShowsCr(FRESH, Frame("data", text));
      var bad := Message("message", WithoutFinalNewline(text), "");
      assert '\r' in bad.data;
      assert bad in [bad];
    }
  }
}
