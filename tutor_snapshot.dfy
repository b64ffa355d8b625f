/** The tutor conversation as the page keeps it and as it stores it in `localStorage`
    under the key `ai-tutor-chat-state`: `JSON.stringify({hasStarted, messages, threadId})`,
    and the reader that takes such a record back. */
module TutorSnapshot {
  import opened Wrappers
  import Json

  datatype Role = User | Assistant

  datatype Message = Message(id: string, role: Role, content: string)

  datatype PersistedState = PersistedState(hasStarted: bool, messages: seq<Message>, threadId: string)

  function RoleName(r: Role): string
  {
    match r
    case User => "user"
    case Assistant => "assistant"
  }

  function ParseRole(s: string): (r: Option<Role>)
    ensures r.Some? ==> RoleName(r.value) == s
  {
    if s == "user" then Some(User) else if s == "assistant" then Some(Assistant) else None
  }

  const IdKey: string := "{\"id\":"
  const RoleKey: string := ",\"role\":"
  const ContentKey: string := ",\"content\":"
  const HasStartedKey: string := "{\"hasStarted\":"
  const MessagesKey: string := ",\"messages\":"
  const ThreadIdKey: string := ",\"threadId\":"

  /** The JSON text of `m`, followed by `rest`. (Encoders take what follows them so
      that each reader's input is literally the encoder's output.) */
  function EncodeMessage(m: Message, rest: string): string
  {
    IdKey + (Json.Quote(m.id) + (RoleKey + (Json.Quote(RoleName(m.role)) +
    (ContentKey + (Json.Quote(m.content) + ("}" + rest))))))
  }

  /** The elements after the first, each preceded by a comma, then the closing bracket. */
  function EncodeMessageItems(ms: seq<Message>, rest: string): string
  {
    if ms == [] then "]" + rest else "," + EncodeMessage(ms[0], EncodeMessageItems(ms[1..], rest))
  }

  function EncodeMessages(ms: seq<Message>, rest: string): string
  {
    if ms == [] then "[" + ("]" + rest)
    else "[" + EncodeMessage(ms[0], EncodeMessageItems(ms[1..], rest))
  }

  /** `JSON.stringify(stateToSave)`: a stored record reads back as the state that was
      stored. */
  function EncodeSnapshot(st: PersistedState): (t: string)
    ensures DecodeSnapshot(t) == Some(st)
  {
    var tail3 := Json.Quote(st.threadId) + "}";
    var tail2 := EncodeMessages(st.messages, ThreadIdKey + tail3);
    var tail1 := Json.BoolLiteral(st.hasStarted) + (MessagesKey + tail2);
    assert Json.Expect(HasStartedKey, HasStartedKey + tail1) == Some(tail1) by {
      Json.ExpectLiteral(HasStartedKey, tail1);
    }
    assert Json.ReadBool(tail1) == Some((st.hasStarted, MessagesKey + tail2)) by {
      Json.BoolRoundTrip(st.hasStarted, MessagesKey + tail2);
    }
    assert Json.Expect(MessagesKey, MessagesKey + tail2) == Some(tail2) by {
      Json.ExpectLiteral(MessagesKey, tail2);
    }
    assert ReadMessages(tail2) == Some((st.messages, ThreadIdKey + tail3)) by {
      MessagesRoundTrip(st.messages, ThreadIdKey + tail3);
    }
    assert Json.Expect(ThreadIdKey, ThreadIdKey + tail3) == Some(tail3) by {
      Json.ExpectLiteral(ThreadIdKey, tail3);
    }
    assert Json.ReadString(tail3) == Some((st.threadId, "}")) by {
      Json.QuoteRoundTrip(st.threadId, "}");
    }
    HasStartedKey + tail1
  }

  function ReadMessage(t: string): (r: Option<(Message, string)>)
    ensures r.Some? ==> |r.value.1| < |t|
  {
    var t1 :- Json.Expect(IdKey, t);
    var p1 :- Json.ReadString(t1);
    var t2 :- Json.Expect(RoleKey, p1.1);
    var p2 :- Json.ReadString(t2);
    var role :- ParseRole(p2.0);
    var t3 :- Json.Expect(ContentKey, p2.1);
    var p3 :- Json.ReadString(t3);
    var t4 :- Json.Expect("}", p3.1);
    Some((Message(p1.0, role, p3.0), t4))
  }

  function ReadMessageItems(t: string): (r: Option<(seq<Message>, string)>)
    ensures r.Some? ==> |r.value.1| < |t|
    decreases |t|
  {
    if t != [] && t[0] == ']' then Some(([], t[1..]))
    else if t != [] && t[0] == ',' then
      var p1 :- ReadMessage(t[1..]);
      var p2 :- ReadMessageItems(p1.1);
      Some(([p1.0] + p2.0, p2.1))
    else None
  }

  function ReadMessages(t: string): (r: Option<(seq<Message>, string)>)
    ensures r.Some? ==> |r.value.1| < |t|
  {
    var t1 :- Json.Expect("[", t);
    if t1 != [] && t1[0] == ']' then Some(([], t1[1..]))
    else
      var p1 :- ReadMessage(t1);
      var p2 :- ReadMessageItems(p1.1);
      Some(([p1.0] + p2.0, p2.1))
  }

  /** `JSON.parse` of a stored record: `None` for text that is not a record in the form
      `EncodeSnapshot` writes. */
  function DecodeSnapshot(t: string): (r: Option<PersistedState>)
    ensures r.Some? ==> HasStartedKey <= t
  {
    var t1 :- Json.Expect(HasStartedKey, t);
    var p1 :- Json.ReadBool(t1);
    var t2 :- Json.Expect(MessagesKey, p1.1);
    var p2 :- ReadMessages(t2);
    var t3 :- Json.Expect(ThreadIdKey, p2.1);
    var p3 :- Json.ReadString(t3);
    if p3.1 == "}" then Some(PersistedState(p1.0, p2.0, p3.0)) else None
  }

  lemma MessageRoundTrip(m: Message, rest: string)
    ensures ReadMessage(EncodeMessage(m, rest)) == Some((m, rest))
  {
    var tail3 := Json.Quote(m.content) + ("}" + rest);
    var tail2 := Json.Quote(RoleName(m.role)) + (ContentKey + tail3);
    var tail1 := Json.Quote(m.id) + (RoleKey + tail2);
    Json.ExpectLiteral(IdKey, tail1);
    Json.QuoteRoundTrip(m.id, RoleKey + tail2);
    Json.ExpectLiteral(RoleKey, tail2);
    Json.QuoteRoundTrip(RoleName(m.role), ContentKey + tail3);
    assert ParseRole(RoleName(m.role)) == Some(m.role);
    Json.ExpectLiteral(ContentKey, tail3);
    Json.QuoteRoundTrip(m.content, "}" + rest);
    Json.ExpectLiteral("}", rest);
  }

  lemma {:induction false} MessageItemsRoundTrip(ms: seq<Message>, rest: string)
    ensures ReadMessageItems(EncodeMessageItems(ms, rest)) == Some((ms, rest))
  {
    if ms == [] {
      assert ("]" + rest)[1..] == rest;
    } else {
      var after := EncodeMessageItems(ms[1..], rest);
      assert ("," + EncodeMessage(ms[0], after))[1..] == EncodeMessage(ms[0], after);
      assert ReadMessage(EncodeMessage(ms[0], after)) == Some((ms[0], after)) by {
        MessageRoundTrip(ms[0], after);
      }
      assert ReadMessageItems(after) == Some((ms[1..], rest)) by {
        MessageItemsRoundTrip(ms[1..], rest);
      }
      assert [ms[0]] + ms[1..] == ms;
    }
  }

  lemma MessagesRoundTrip(ms: seq<Message>, rest: string)
    ensures ReadMessages(EncodeMessages(ms, rest)) == Some((ms, rest))
  {
    if ms == [] {
      Json.ExpectLiteral("[", "]" + rest);
      assert ("]" + rest)[1..] == rest;
    } else {
      var after := EncodeMessageItems(ms[1..], rest);
      var first := EncodeMessage(ms[0], after);
      assert Json.Expect("[", "[" + first) == Some(first) by { Json.ExpectLiteral("[", first); }
      assert first[0] == '{';
      assert ReadMessage(first) == Some((ms[0], after)) by {
        MessageRoundTrip(ms[0], after);
      }
      assert ReadMessageItems(after) == Some((ms[1..], rest)) by {
        MessageItemsRoundTrip(ms[1..], rest);
      }
      assert [ms[0]] + ms[1..] == ms;
    }
  }
}
