/** The tutor chat page: a conversation whose assistant turns are streamed in, published
    to the screen at most once per animation frame, committed once the stream ends and
    kept in `localStorage`. */
module Tutor {
  import opened Wrappers
  import opened TutorSnapshot
  import Text
  import Uuid

  /** The body posted to `/api/chat`. */
  datatype ChatPrompt = ChatPrompt(role: Role, content: string, id: string)
  datatype ChatRequest = ChatRequest(prompt: ChatPrompt, threadId: string, responseId: string)

  // ---------------------------------------------------------------------------------
  // Scrolling

  /** Distance from the bottom, in pixels, within which the view follows new content. */
  const ScrollThreshold: real := 100.0

  /** The scroll container's geometry, in CSS pixels (fractional under zoom). */
  datatype ScrollBox = ScrollBox(scrollHeight: real, scrollTop: real, clientHeight: real)

  function DistanceFromBottom(b: ScrollBox): real
  {
    b.scrollHeight - b.scrollTop - b.clientHeight
  }

  /** `isNearBottom()`: true when there is no container yet, else whether the view is
      strictly closer to the bottom than the threshold. */
  function IsNearBottom(container: Option<ScrollBox>): (near: bool)
    ensures container.None? ==> near
    ensures container.Some? ==> (near <==> DistanceFromBottom(container.value) < ScrollThreshold)
  {
    match container
    case None => true
    case Some(b) => DistanceFromBottom(b) < ScrollThreshold
  }

  // ---------------------------------------------------------------------------------
  // Sidebar history

  /** Number of past questions the sidebar lists. */
  const HistoryLimit: nat := 10

  /** The positions of the user's messages in `ms`, in order: exactly the indices whose
      message has the user role, strictly increasing. */
  function UserPositions(ms: seq<Message>): (idx: seq<nat>)
    ensures forall k :: 0 <= k < |idx| ==> idx[k] < |ms| && ms[idx[k]].role == User
    ensures forall k, l :: 0 <= k < l < |idx| ==> idx[k] < idx[l]
    ensures forall j :: 0 <= j < |ms| && ms[j].role == User ==> j in idx
  {
    if ms == [] then []
    else if ms[|ms| - 1].role == User then UserPositions(ms[..|ms| - 1]) + [|ms| - 1]
    else UserPositions(ms[..|ms| - 1])
  }

  /** `messages.filter(m => m.role === "user")`: the user's messages, in their order. */
  function UserMessages(ms: seq<Message>): (us: seq<Message>)
    ensures |us| == |UserPositions(ms)|
    ensures forall k :: 0 <= k < |us| ==> us[k] == ms[UserPositions(ms)[k]]
  {
    if ms == [] then []
    else if ms[|ms| - 1].role == User then UserMessages(ms[..|ms| - 1]) + [ms[|ms| - 1]]
    else UserMessages(ms[..|ms| - 1])
  }

  /** `.reverse()`. */
  function Reverse<T>(s: seq<T>): (r: seq<T>)
    ensures |r| == |s|
    ensures forall k :: 0 <= k < |s| ==> r[k] == s[|s| - 1 - k]
  {
    if s == [] then [] else [s[|s| - 1]] + Reverse(s[..|s| - 1])
  }

  /** `.slice(-n)`: the last `n`, or all when there are fewer; `-0` is `0`, so
      `.slice(-0)` keeps everything. */
  function LastN<T>(s: seq<T>, n: nat): (r: seq<T>)
    ensures |r| == (if n == 0 || |s| < n then |s| else n)
    ensures r == s[|s| - |r|..]
  {
    if n == 0 || |s| <= n then s else s[|s| - n..]
  }

  /** `messages.filter(m => m.role === "user").slice(-10).reverse()`: the last ten user
      messages, newest first. */
  function SidebarHistory(ms: seq<Message>): (h: seq<Message>)
    ensures var us := UserMessages(ms);
      |h| == (if |us| < HistoryLimit then |us| else HistoryLimit) &&
      forall k :: 0 <= k < |h| ==> h[k] == us[|us| - 1 - k]
  {
    Reverse(LastN(UserMessages(ms), HistoryLimit))
  }

  // ---------------------------------------------------------------------------------
  // The stream as the page reads it

  /** One step of the read loop, as the browser interleaves it: a decoded chunk, or an
      animation frame that fires while the loop awaits the next read. */
  datatype StreamEvent = Chunk(text: string) | Frame

  /** How the `/api/chat` request turns out: `fetch` rejects, the status is not ok,
      there is no body, or the body yields `events` and then either ends (`completes`)
      or makes the pending read reject. */
  datatype ChatReply =
    | FetchFailed
    | HttpError
    | NoBody
    | Stream(events: seq<StreamEvent>, completes: bool)

  /** The reply that ends in an assistant message. */
  predicate Commits(reply: ChatReply)
  {
    reply.Stream? && reply.completes
  }

  /** The text each event adds to the buffer: a chunk its text, a frame nothing. */
  function ChunkTexts(events: seq<StreamEvent>): seq<string>
  {
    seq(|events|, k requires 0 <= k < |events| => if events[k].Chunk? then events[k].text else "")
  }

  /** Everything the events delivered, in order. */
  function Received(events: seq<StreamEvent>): string
  {
    Text.Concat(ChunkTexts(events))
  }

  /** Reading one more event extends what was received by that event's chunk. */
  lemma ReceivedSnoc(events: seq<StreamEvent>, e: StreamEvent)
    ensures Received(events + [e]) == Received(events) + (if e.Chunk? then e.text else "")
  {
    assert ChunkTexts(events + [e]) == ChunkTexts(events) + [if e.Chunk? then e.text else ""];
    Text.ConcatSnoc(ChunkTexts(events), if e.Chunk? then e.text else "");
  }

  /** What the reply delivered before it ended or failed. */
  function Arrived(reply: ChatReply): string
  {
    if reply.Stream? then Received(reply.events) else ""
  }

  /** Whether any event delivered a chunk. */
  predicate HasChunk(events: seq<StreamEvent>)
  {
    events != [] && (events[|events| - 1].Chunk? || HasChunk(events[..|events| - 1]))
  }

  /** A chunk has arrived after one more event exactly when one had arrived before or
      that event is a chunk. */
  lemma HasChunkSnoc(events: seq<StreamEvent>, e: StreamEvent)
    ensures HasChunk(events + [e]) <==> HasChunk(events) || e.Chunk?
  {
    assert (events + [e])[..|events|] == events;
  }

  /** Some event delivered a chunk exactly when one of them is a chunk. */
  lemma {:induction false} HasChunkSome(events: seq<StreamEvent>)
    ensures HasChunk(events) <==> exists k :: 0 <= k < |events| && events[k].Chunk?
  {
    if events != [] {
      var init := events[..|events| - 1];
      HasChunkSome(init);
      if HasChunk(init) {
        var k :| 0 <= k < |init| && init[k].Chunk?;
        assert events[k] == init[k];
      }
      if exists k :: 0 <= k < |events| && events[k].Chunk? {
        var k :| 0 <= k < |events| && events[k].Chunk?;
        if k < |init| {
          assert init[k] == events[k];
        }
      }
    }
  }

  /** Reading the event at `i` extends the events read so far by that one event. */
  lemma TakeOneMore(events: seq<StreamEvent>, i: nat)
    requires i < |events|
    ensures events[..i + 1] == events[..i] + [events[i]]
  {
    assert events[..i + 1] == events[..i] + [events[i]];
  }

  /** Whether a frame is pending after the events, given whether one was at the start:
      a chunk leaves one scheduled and a frame that fires leaves none. */
  predicate PendingAfter(events: seq<StreamEvent>, pending0: bool)
  {
    if events == [] then pending0 else events[|events| - 1].Chunk?
  }

  /** What the frames publish while the events are read, in order: each frame that finds
      one pending shows `latestContentRef`, which is the buffer once a chunk has arrived
      and `latest0` before that. */
  function FrameLog(events: seq<StreamEvent>, pending0: bool, latest0: string): seq<string>
  {
    if events == [] then []
    else
      var init := events[..|events| - 1];
      FrameLog(init, pending0, latest0) +
        if events[|events| - 1].Frame? && PendingAfter(init, pending0)
        then [if HasChunk(init) then Received(init) else latest0]
        else []
  }

  /** One more event: a frame that finds one pending appends the latest content. */
  lemma FrameLogSnoc(events: seq<StreamEvent>, e: StreamEvent, pending0: bool, latest0: string)
    ensures FrameLog(events + [e], pending0, latest0) ==
      FrameLog(events, pending0, latest0) +
        if e.Frame? && PendingAfter(events, pending0)
        then [if HasChunk(events) then Received(events) else latest0]
        else []
    ensures PendingAfter(events + [e], pending0) == e.Chunk?
  {
    assert (events + [e])[..|events|] == events;
  }

  /** A frame firing extends the frames' log by the latest content exactly when one was
      pending. */
  lemma FrameStep(seen: seq<StreamEvent>, before: seq<string>, log: seq<string>, after: seq<string>,
                  wasPending: bool, latest: string, pending0: bool, latest0: string)
    requires log == before + FrameLog(seen, pending0, latest0) && (wasPending <==> PendingAfter(seen, pending0))
    requires latest == (if HasChunk(seen) then Received(seen) else latest0)
    requires after == log + (if wasPending then [latest] else [])
    ensures after == before + FrameLog(seen + [Frame], pending0, latest0)
    ensures !PendingAfter(seen + [Frame], pending0)
  {
    FrameLogSnoc(seen, Frame, pending0, latest0);
  }

  /** Every value a frame publishes is what arrived up to that frame, so a prefix of
      everything the events delivered, or, before any chunk, the content left from an
      earlier stream when a frame was pending at the start. */
  lemma {:induction false} FrameLogWithin(events: seq<StreamEvent>, pending0: bool, latest0: string)
    ensures forall k :: 0 <= k < |FrameLog(events, pending0, latest0)| ==>
      FrameLog(events, pending0, latest0)[k] <= Received(events) ||
      (pending0 && FrameLog(events, pending0, latest0)[k] == latest0)
  {
    if events != [] {
      var init, e := events[..|events| - 1], events[|events| - 1];
      assert events == init + [e];
      FrameLogWithin(init, pending0, latest0);
      ReceivedSnoc(init, e);
      var log := FrameLog(events, pending0, latest0);
      forall k | 0 <= k < |log|
        ensures log[k] <= Received(events) || (pending0 && log[k] == latest0)
      {
        if k < |FrameLog(init, pending0, latest0)| {
          if FrameLog(init, pending0, latest0)[k] <= Received(init) {
            PrefixExtend(FrameLog(init, pending0, latest0)[k], Received(init), if e.Chunk? then e.text else "");
          }
        } else if HasChunk(init) {
          assert log[k] == Received(init);
        } else {
          assert PendingAfter(init, pending0);
        }
      }
    }
  }

  /** A frame that fires right after a chunk shows everything that has arrived. */
  lemma FrameShowsLatest(events: seq<StreamEvent>, text: string, pending0: bool, latest0: string)
    ensures var log := FrameLog(events + [Chunk(text), Frame], pending0, latest0);
      log != [] && log[|log| - 1] == Received(events + [Chunk(text), Frame])
  {
    var withChunk := events + [Chunk(text)];
    assert events + [Chunk(text), Frame] == withChunk + [Frame];
    FrameLogSnoc(withChunk, Frame, pending0, latest0);
    FrameLogSnoc(events, Chunk(text), pending0, latest0);
    HasChunkSnoc(events, Chunk(text));
    ReceivedSnoc(withChunk, Frame);
  }

  /** What the page publishes while it receives a reply: the frames' values as the events
      are read, then, when the stream completes, the whole reply and the cleared "". */
  function StreamLog(reply: ChatReply, pending0: bool, latest0: string): seq<string>
  {
    match reply
    case Stream(events, completes) =>
      FrameLog(events, pending0, latest0) + (if completes then [Received(events), ""] else [])
    case _ => []
  }

  /** Everything published while a reply is received is a prefix of what arrived, or the
      content a frame left pending by an earlier stream shows when it fires. */
  lemma StreamLogWithin(before: seq<string>, after: seq<string>, reply: ChatReply, raf0: Option<nat>, latest0: string)
    requires after == before + StreamLog(reply, raf0.Some?, latest0)
    ensures PublishedWithin(before, after, Arrived(reply), Pending(raf0, latest0))
  {
    assert after[..|before|] == before;
    if reply.Stream? {
      var frames := FrameLog(reply.events, raf0.Some?, latest0);
      FrameLogWithin(reply.events, raf0.Some?, latest0);
      forall k | |before| <= k < |after|
        ensures after[k] <= Arrived(reply) || (Pending(raf0, latest0).Some? && after[k] == Pending(raf0, latest0).value)
      {
        if k < |before| + |frames| {
          assert after[k] == frames[k - |before|];
        }
      }
    }
  }

  /** Whether a frame is pending after a reply: a completed stream cancels it, a broken
      stream leaves what its last event left, and a reply with no body changes nothing. */
  predicate PendingAfterReply(reply: ChatReply, pending0: bool)
  {
    match reply
    case Stream(events, completes) => !completes && PendingAfter(events, pending0)
    case _ => pending0
  }

  /** `latestContentRef` after a reply: the last buffer a chunk left there, or what it
      held before when no chunk arrived. */
  function LatestAfter(reply: ChatReply, before: string): string
  {
    if reply.Stream? && HasChunk(reply.events) then Received(reply.events) else before
  }

  /** The page after a reply received with `before` published: `after` holds exactly the
      values `StreamLog` gives after `before`, each of them within what arrived; a frame
      is `pending` exactly when `PendingAfterReply` says so; and `latestContentRef` holds
      `latest`, as the last chunk left it. */
  ghost predicate ReplyShown(reply: ChatReply, before: seq<string>, after: seq<string>, pending: bool,
                             latest: string, raf0: Option<nat>, latest0: string)
  {
    after == before + StreamLog(reply, raf0.Some?, latest0) &&
    PublishedWithin(before, after, Arrived(reply), Pending(raf0, latest0)) &&
    (pending <==> PendingAfterReply(reply, raf0.Some?)) &&
    latest == LatestAfter(reply, latest0)
  }

  /** A stream read to its end or to the failing read, then committed when it completes:
      the read loop's log, followed on completion by the final flush of the whole
      response and the cleared "". */
  lemma StreamShown(reply: ChatReply, before: seq<string>, read: seq<string>, after: seq<string>,
                    pendingRead: bool, pendingAfter: bool, latest: string, raf0: Option<nat>, latest0: string)
    requires reply.Stream? && read == before + FrameLog(reply.events, raf0.Some?, latest0)
    requires after == if reply.completes then read + [Received(reply.events), ""] else read
    requires (pendingRead <==> PendingAfter(reply.events, raf0.Some?)) && pendingAfter == (!reply.completes && pendingRead)
    requires latest == if HasChunk(reply.events) then Received(reply.events) else latest0
    ensures ReplyShown(reply, before, after, pendingAfter, latest, raf0, latest0)
    ensures reply.completes ==> |after| >= 2 && after[|after| - 2] == Received(reply.events)
  {
    var frames := FrameLog(reply.events, raf0.Some?, latest0);
    if reply.completes {
      assert after == before + (frames + [Received(reply.events), ""]);
    } else {
      assert frames + [] == frames;
    }
    StreamLogWithin(before, after, reply, raf0, latest0);
  }

  /** A reply without a body publishes nothing and leaves the scheduler as it was. */
  lemma NoStreamShown(reply: ChatReply, before: seq<string>, raf0: Option<nat>, latest0: string)
    requires !reply.Stream?
    ensures ReplyShown(reply, before, before, raf0.Some?, latest0, raf0, latest0)
  {
    StreamLogWithin(before, before, reply, raf0, latest0);
  }

  /** The content a pending frame publishes when it fires, if one is pending. */
  function Pending(rafId: Option<nat>, latestContent: string): Option<string>
  {
    if rafId.Some? then Some(latestContent) else None
  }

  /** Every value published after `before` is a prefix of `bound`, or is `stale`: the
      content a frame left pending by an earlier stream publishes when it fires. */
  ghost predicate PublishedWithin(before: seq<string>, after: seq<string>, bound: string, stale: Option<string>)
  {
    |before| <= |after| && after[..|before|] == before &&
    forall k :: |before| <= k < |after| ==> after[k] <= bound || (stale.Some? && after[k] == stale.value)
  }

  /** Publishing more prefixes of the bound keeps the values published within it. */
  lemma PublishedWithinAppend(before: seq<string>, after: seq<string>, more: seq<string>, bound: string, stale: Option<string>)
    requires PublishedWithin(before, after, bound, stale)
    requires forall k :: 0 <= k < |more| ==> more[k] <= bound
    ensures PublishedWithin(before, after + more, bound, stale)
  {
    var all := after + more;
    assert all[..|before|] == after[..|before|];
    forall k | |before| <= k < |all|
      ensures all[k] <= bound || (stale.Some? && all[k] == stale.value)
    {
      if k < |after| {
        assert all[k] == after[k];
      } else {
        assert all[k] == more[k - |after|];
      }
    }
  }

  /** A value that is a prefix of the bound, or the stale one, may be published. */
  lemma PublishedWithinPush(before: seq<string>, after: seq<string>, v: string, bound: string, stale: Option<string>)
    requires PublishedWithin(before, after, bound, stale)
    requires v <= bound || (stale.Some? && v == stale.value)
    ensures PublishedWithin(before, after + [v], bound, stale)
  {
    assert (after + [v])[..|before|] == after[..|before|];
  }

  lemma PrefixExtend(p: string, s: string, c: string)
    requires p <= s
    ensures p <= s + c
  {
    assert (s + c)[..|p|] == s[..|p|];
  }

  /** A chunk arriving keeps every value published a prefix of the longer buffer. */
  lemma PublishedWithinExtend(before: seq<string>, after: seq<string>, bound: string, c: string, stale: Option<string>)
    requires PublishedWithin(before, after, bound, stale)
    ensures PublishedWithin(before, after, bound + c, stale)
  {
    forall k | |before| <= k < |after|
      ensures after[k] <= bound + c || (stale.Some? && after[k] == stale.value)
    {
      if after[k] <= bound {
        PrefixExtend(after[k], bound, c);
      }
    }
  }

  /** An empty value published first is a prefix of any bound. */
  lemma PublishedWithinEmptyFirst(before: seq<string>, after: seq<string>, bound: string, stale: Option<string>)
    requires PublishedWithin(before + [""], after, bound, stale)
    ensures PublishedWithin(before, after, bound, stale)
  {
    assert after[..|before|] == (before + [""])[..|before|] == before;
    forall k | |before| <= k < |after|
      ensures after[k] <= bound || (stale.Some? && after[k] == stale.value)
    {
      if k == |before| {
        assert after[k] == (before + [""])[k] == "";
      }
    }
  }

  /** The messages after one turn of `sendMessage`: the user's message appended, then,
      exactly when the reply is committed, one assistant message holding everything
      that arrived, under an id not issued before the turn. */
  ghost predicate TurnMessages(before: seq<Message>, after: seq<Message>, user: Message, reply: ChatReply, issued: set<string>)
  {
    |after| == |before| + (if Commits(reply) then 2 else 1) &&
    after[..|before| + 1] == before + [user] &&
    (Commits(reply) ==>
      var answer := after[|after| - 1];
      answer.role == Assistant && answer.content == Received(reply.events) &&
      answer.id !in issued && answer.id != user.id)
  }

  /** The messages after a reply: those before kept, then exactly when the reply is
      committed one assistant message holding everything that arrived, under an id not
      in `issued`. */
  ghost predicate ReplyMessages(before: seq<Message>, after: seq<Message>, reply: ChatReply, issued: set<string>)
  {
    |after| == |before| + (if Commits(reply) then 1 else 0) && after[..|before|] == before &&
    (Commits(reply) ==>
      var answer := after[|before|];
      answer.role == Assistant && answer.content == Received(reply.events) && answer.id !in issued)
  }

  /** The user's message appended first and the reply's messages after it make one turn. */
  lemma ComposeTurnMessages(before: seq<Message>, begun: seq<Message>, after: seq<Message>, user: Message,
                            reply: ChatReply, issued: set<string>, issuedMid: set<string>)
    requires begun == before + [user] && issued <= issuedMid && user.id in issuedMid
    requires ReplyMessages(begun, after, reply, issuedMid)
    ensures TurnMessages(before, after, user, reply, issued)
  {
  }

  /** What `localStorage` yields on load: a stored record that `JSON.parse` reads, or
      nothing when the key is absent, empty or unreadable. */
  function Restore(stored: Option<string>): (r: Option<PersistedState>)
    ensures stored.Some? && stored.value != "" ==> r == DecodeSnapshot(stored.value)
    ensures r.Some? ==> stored.Some? && HasStartedKey <= stored.value
  {
    if stored.Some? && stored.value != "" then DecodeSnapshot(stored.value) else None
  }

  /** What the page stores is what it restores. */
  lemma RestorePersisted(st: PersistedState)
    ensures Restore(Some(EncodeSnapshot(st))) == Some(st)
  {
  }

  // ---------------------------------------------------------------------------------
  // The page

  class TutorPage {
    var hasStarted: bool
    var mounted: bool
    var messages: seq<Message>
    var input: string
    var isLoading: bool
    var streamingContent: string
    var shouldAutoScroll: bool
    /** `threadIdRef` */
    var threadId: string
    /** `streamingIdRef` */
    var streamingId: Option<string>
    /** `latestContentRef` */
    var latestContent: string
    /** `rafIdRef`: the handle of the frame callback this page has pending, if any. */
    var rafId: Option<nat>
    /** The frame callbacks the browser holds for this page, in registration order. */
    var frameCallbacks: seq<nat>
    var nextFrameHandle: nat
    /** `localStorage["ai-tutor-chat-state"]` */
    var storage: Option<string>
    /** Every value given to `setStreamingContent`, in order. */
    ghost var published: seq<string>

    /** The page's handle mirrors the browser's queue, so at most one frame callback is
        ever outstanding; the screen shows the last published value. */
    ghost predicate Valid()
      reads this`frameCallbacks, this`rafId, this`published, this`streamingContent
    {
      frameCallbacks == (if rafId.Some? then [rafId.value] else []) &&
      published != [] && streamingContent == published[|published| - 1]
    }

    function Snapshot(): PersistedState
      reads this`hasStarted, this`messages, this`threadId
    {
      PersistedState(hasStarted, messages, threadId)
    }

    /** The first render: default state, a fresh thread id, and whatever `localStorage`
        holds under the key. */
    constructor (ids: Uuid.UuidSource, stored: Option<string>)
      requires ids.Valid()
      modifies ids
      ensures Valid() && ids.Valid()
      ensures !hasStarted && !mounted && messages == [] && input == "" && !isLoading
      ensures streamingContent == "" && shouldAutoScroll && streamingId.None? && latestContent == ""
      ensures rafId.None? && frameCallbacks == [] && storage == stored && published == [""]
      ensures threadId !in old(ids.issued) && ids.issued == old(ids.issued) + {threadId}
    {
      var tid := ids.RandomUuid();
      hasStarted, mounted, messages, input, isLoading := false, false, [], "", false;
      streamingContent, shouldAutoScroll, threadId, streamingId := "", true, tid, None;
      latestContent, rafId, frameCallbacks, nextFrameHandle := "", None, [], 1;
      storage, published := stored, [""];
    }

    /** `setStreamingContent(v)`. */
    method Publish(v: string)
      requires Valid()
      modifies this`streamingContent, this`published
      ensures Valid() && streamingContent == v && published == old(published) + [v]
    {
      streamingContent := v;
      published := published + [v];
    }

    /** `scheduleUpdate()`: registers a frame callback only when none is pending. */
    method ScheduleUpdate()
      requires Valid()
      modifies this`rafId, this`frameCallbacks, this`nextFrameHandle
      ensures Valid() && |frameCallbacks| == 1
      ensures old(rafId).Some? ==> rafId == old(rafId) && frameCallbacks == old(frameCallbacks)
      ensures old(rafId).None? ==> rafId == Some(old(nextFrameHandle))
    {
      if rafId.None? {
        rafId := Some(nextFrameHandle);
        frameCallbacks := [nextFrameHandle];
        nextFrameHandle := nextFrameHandle + 1;
      }
    }

    /** The browser paints a frame: the pending callback, if any, publishes the latest
        buffer and clears the handle. */
    method RunFrame()
      requires Valid()
      modifies this`streamingContent, this`published, this`rafId, this`frameCallbacks
      ensures Valid() && rafId.None? && frameCallbacks == []
      ensures old(rafId).Some? ==> streamingContent == latestContent && published == old(published) + [latestContent]
      ensures old(rafId).None? ==> streamingContent == old(streamingContent) && published == old(published)
    {
      if frameCallbacks != [] {
        Publish(latestContent);
        rafId := None;
        frameCallbacks := [];
      }
    }

    /** `handleScroll()`. */
    method HandleScroll(container: Option<ScrollBox>)
      modifies this`shouldAutoScroll
      ensures shouldAutoScroll == IsNearBottom(container)
    {
      shouldAutoScroll := IsNearBottom(container);
    }

    /** The mount effect: a readable stored record restores the conversation; otherwise
        the defaults stay. Either way the page is mounted. */
    method LoadEffect()
      modifies this`hasStarted, this`messages, this`threadId, this`mounted
      ensures mounted
      ensures Restore(storage).Some? ==> Snapshot() == Restore(storage).value
      ensures Restore(storage).None? ==> Snapshot() == old(Snapshot())
    {
      var saved := storage;
      if saved.Some? && saved.value != "" {
        match DecodeSnapshot(saved.value)
        case Some(parsed) =>
          hasStarted := parsed.hasStarted;
          messages := parsed.messages;
          threadId := parsed.threadId;
        case None =>
      }
      mounted := true;
    }

    /** The persist effect, run whenever `hasStarted`, `messages` or `mounted` change:
        once mounted, the stored record is exactly `{hasStarted, messages, threadId}`. */
    method PersistEffect()
      modifies this`storage
      ensures mounted ==> storage == Some(EncodeSnapshot(Snapshot()))
      ensures mounted ==> Restore(storage) == Some(Snapshot())
      ensures !mounted ==> storage == old(storage)
    {
      if mounted {
        storage := Some(EncodeSnapshot(Snapshot()));
        RestorePersisted(Snapshot());
      }
    }

    /** The read loop's state after the events `seen`: the buffer holds everything they
        delivered and `latestContentRef` the buffer once a chunk has arrived (before
        that, what it held at the start); a frame is pending only for a chunk of this
        stream or one left pending from before; and every value published since the
        start is a prefix of the buffer or that earlier frame's content. */
    ghost predicate ReadingState(seen: seq<StreamEvent>, buffer: string, before: seq<string>,
                                 latest0: string, raf0: Option<nat>)
      reads this`frameCallbacks, this`rafId, this`published, this`streamingContent, this`latestContent
    {
      Valid() && buffer == Received(seen) &&
      latestContent == (if HasChunk(seen) then buffer else latest0) &&
      (rafId.Some? ==> HasChunk(seen) || raf0.Some?) &&
      PublishedWithin(before, published, buffer, Pending(raf0, latest0))
    }

    /** The frames' side of the read loop after the events `seen`: exactly the values
        `FrameLog` gives were published since the start, and a frame is pending exactly
        when `PendingAfter` says so. */
    ghost predicate FramesPublished(seen: seq<StreamEvent>, before: seq<string>, latest0: string, raf0: Option<nat>)
      reads this`published, this`rafId
    {
      published == before + FrameLog(seen, raf0.Some?, latest0) &&
      (rafId.Some? <==> PendingAfter(seen, raf0.Some?))
    }

    /** One step of the read loop: a chunk extends the buffer, becomes the latest content
        and schedules a frame; a frame that fires publishes the latest content. */
    method ReadEvent(e: StreamEvent, ghost seen: seq<StreamEvent>, buffer: string,
                     ghost before: seq<string>, ghost latest0: string, ghost raf0: Option<nat>)
      returns (next: string)
      requires ReadingState(seen, buffer, before, latest0, raf0)
      modifies this`streamingContent, this`published, this`latestContent, this`rafId,
        this`frameCallbacks, this`nextFrameHandle
      ensures ReadingState(seen + [e], next, before, latest0, raf0)
      ensures next == buffer + (if e.Chunk? then e.text else "")
      ensures e.Chunk? ==> rafId.Some? && (old(rafId).Some? ==> rafId == old(rafId))
      ensures e.Chunk? ==> published == old(published)
      ensures e.Frame? ==>
        rafId.None? && published == old(published) + (if old(rafId).Some? then [latestContent] else [])
      ensures old(FramesPublished(seen, before, latest0, raf0)) ==> FramesPublished(seen + [e], before, latest0, raf0)
    {
      ReceivedSnoc(seen, e);
      HasChunkSnoc(seen, e);
      match e {
        case Chunk(text) =>
          next := ReadChunk(text, seen, buffer, before, latest0, raf0);
        case Frame =>
          assert buffer + "" == buffer;
          ReadFrame(seen, buffer, before, latest0, raf0);
          next := buffer;
      }
    }

    /** A chunk: the buffer grows by it, becomes the latest content and a frame is
        scheduled. */
    method ReadChunk(text: string, ghost seen: seq<StreamEvent>, buffer: string,
                     ghost before: seq<string>, ghost latest0: string, ghost raf0: Option<nat>)
      returns (next: string)
      requires ReadingState(seen, buffer, before, latest0, raf0)
      requires Received(seen + [Chunk(text)]) == buffer + text && HasChunk(seen + [Chunk(text)])
      modifies this`latestContent, this`rafId, this`frameCallbacks, this`nextFrameHandle
      ensures ReadingState(seen + [Chunk(text)], next, before, latest0, raf0)
      ensures next == buffer + text && latestContent == next
      ensures rafId.Some? && (old(rafId).Some? ==> rafId == old(rafId))
      ensures old(FramesPublished(seen, before, latest0, raf0)) ==> FramesPublished(seen + [Chunk(text)], before, latest0, raf0)
    {
      FrameLogSnoc(seen, Chunk(text), raf0.Some?, latest0);
      PublishedWithinExtend(before, published, buffer, text, Pending(raf0, latest0));
      next := buffer + text;
      latestContent := next;
      ScheduleUpdate();
    }

    /** A frame: the pending callback, if any, publishes the latest content. */
    method ReadFrame(ghost seen: seq<StreamEvent>, buffer: string,
                     ghost before: seq<string>, ghost latest0: string, ghost raf0: Option<nat>)
      requires ReadingState(seen, buffer, before, latest0, raf0)
      requires Received(seen + [Frame]) == buffer && HasChunk(seen + [Frame]) == HasChunk(seen)
      modifies this`streamingContent, this`published, this`rafId, this`frameCallbacks
      ensures ReadingState(seen + [Frame], buffer, before, latest0, raf0)
      ensures rafId.None?
      ensures old(rafId).Some? ==> published == old(published) + [latestContent]
      ensures old(rafId).None? ==> published == old(published)
      ensures old(FramesPublished(seen, before, latest0, raf0)) ==> FramesPublished(seen + [Frame], before, latest0, raf0)
    {
      ghost var framesBefore, log, wasPending := FramesPublished(seen, before, latest0, raf0), published, rafId.Some?;
      if rafId.Some? {
        PublishedWithinPush(before, published, latestContent, buffer, Pending(raf0, latest0));
      }
      RunFrame();
      if framesBefore {
        FrameStep(seen, before, log, published, wasPending, latestContent, raf0.Some?, latest0);
      }
    }

    /** The read loop of `sendMessage`: each chunk extends the buffer, becomes the latest
        content and schedules a frame; each frame that fires publishes the latest
        content. Every value published is a prefix of what arrived, except that a frame
        left pending from an earlier stream may first publish that stream's text. */
    method ReadStream(events: seq<StreamEvent>) returns (fullResponse: string)
      requires Valid()
      modifies this`streamingContent, this`published, this`latestContent, this`rafId,
        this`frameCallbacks, this`nextFrameHandle
      ensures Valid() && fullResponse == Received(events)
      ensures latestContent == (if HasChunk(events) then fullResponse else old(latestContent))
      ensures events != [] && events[|events| - 1].Chunk? ==> rafId.Some?
      ensures published == old(published) + FrameLog(events, old(rafId).Some?, old(latestContent))
      ensures rafId.Some? <==> PendingAfter(events, old(rafId).Some?)
    {
      fullResponse := "";
      assert published[..|published|] == published;
      assert FramesPublished([], old(published), old(latestContent), old(rafId));
      var i := 0;
      ghost var seen: seq<StreamEvent> := [];
      while i < |events|
        invariant 0 <= i <= |events| && seen == events[..i]
        invariant ReadingState(seen, fullResponse, old(published), old(latestContent), old(rafId))
        invariant FramesPublished(seen, old(published), old(latestContent), old(rafId))
      {
        TakeOneMore(events, i);
        fullResponse := ReadEvent(events[i], seen, fullResponse, old(published), old(latestContent), old(rafId));
        seen := seen + [events[i]];
        i := i + 1;
      }
      assert seen == events;
    }

    /** The synchronous start of `sendMessage`: the user's message is appended and the
        streaming state reset before the request is posted. */
    method BeginTurn(content: string, ids: Uuid.UuidSource) returns (request: ChatRequest)
      requires Valid() && ids.Valid()
      modifies this`messages, this`isLoading, this`shouldAutoScroll, this`streamingContent,
        this`published, this`streamingId, ids
      ensures Valid() && ids.Valid()
      ensures request.prompt.role == User && request.prompt.content == content && request.threadId == threadId
      ensures request.prompt.id !in old(ids.issued) && request.responseId !in old(ids.issued)
      ensures request.prompt.id != request.responseId && old(ids.issued) <= ids.issued
      ensures request.prompt.id in ids.issued
      ensures messages == old(messages) + [Message(request.prompt.id, User, content)]
      ensures isLoading && shouldAutoScroll && streamingId.Some?
      ensures streamingContent == "" && published == old(published) + [""]
    {
      var userId := ids.RandomUuid();
      messages := messages + [Message(userId, User, content)];
      isLoading := true;
      shouldAutoScroll := true;
      Publish("");
      var sid := ids.RandomUuid();
      streamingId := Some(sid);
      var responseId := ids.RandomUuid();
      request := ChatRequest(ChatPrompt(User, content, userId), threadId, responseId);
    }

    /** The end of a completed stream: the pending frame is cancelled, the whole response
        published once more, exactly one assistant message appended and the streaming
        state cleared. */
    method CommitTurn(fullResponse: string, ids: Uuid.UuidSource)
      requires Valid() && ids.Valid()
      modifies this`messages, this`streamingContent, this`published, this`streamingId,
        this`rafId, this`frameCallbacks, ids
      ensures Valid() && ids.Valid() && old(ids.issued) <= ids.issued
      ensures rafId.None? && frameCallbacks == []
      ensures |messages| == |old(messages)| + 1 && messages[..|old(messages)|] == old(messages)
      ensures var answer := messages[|old(messages)|];
        answer.role == Assistant && answer.content == fullResponse && answer.id !in old(ids.issued)
      ensures published == old(published) + [fullResponse, ""]
      ensures streamingContent == "" && streamingId.None?
    {
      rafId := None;
      frameCallbacks := [];
      Publish(fullResponse);
      var answerId := ids.RandomUuid();
      messages := messages + [Message(answerId, Assistant, fullResponse)];
      Publish("");
      streamingId := None;
    }

    /** What follows the read loop, which only a stream that completes reaches: the
        commit. A broken stream skips it and changes nothing here. */
    method FinishStream(reply: ChatReply, fullResponse: string, ids: Uuid.UuidSource)
      requires reply.Stream? && fullResponse == Received(reply.events) && Valid() && ids.Valid()
      modifies this`messages, this`streamingContent, this`published, this`streamingId,
        this`rafId, this`frameCallbacks, ids
      ensures Valid() && ids.Valid() && old(ids.issued) <= ids.issued
      ensures ReplyMessages(old(messages), messages, reply, old(ids.issued))
      ensures reply.completes ==>
        rafId.None? && streamingContent == "" && streamingId.None? &&
        published == old(published) + [fullResponse, ""]
      ensures !reply.completes ==>
        published == old(published) && rafId == old(rafId) && streamingId == old(streamingId)
    {
      if reply.completes {
        CommitTurn(fullResponse, ids);
      } else {
        assert messages[..|messages|] == messages;
      }
    }

    /** After a completed turn: the whole response was published once more, then the
        streaming state cleared with no frame left pending. */
    ghost predicate Flushed(response: string)
      reads this
    {
      streamingContent == "" && streamingId.None? && rafId.None? &&
      |published| >= 2 && published[|published| - 2] == response
    }

    /** A reply that has a body: the stream is read to its end or to the failing read,
        and committed when it completes; a broken stream leaves its partial state. */
    method ReceiveStream(reply: ChatReply, ids: Uuid.UuidSource)
      requires reply.Stream? && Valid() && ids.Valid()
      modifies this`messages, this`streamingContent, this`published, this`streamingId,
        this`latestContent, this`rafId, this`frameCallbacks, this`nextFrameHandle, ids
      ensures Valid() && ids.Valid() && old(ids.issued) <= ids.issued
      ensures ReplyMessages(old(messages), messages, reply, old(ids.issued))
      ensures reply.completes ==> Flushed(Received(reply.events))
      ensures !reply.completes ==> streamingId == old(streamingId)
      ensures ReplyShown(reply, old(published), published, rafId.Some?, latestContent, old(rafId), old(latestContent))
    {
      var fullResponse := ReadStream(reply.events);
      ghost var read, pendingRead := published, rafId.Some?;
      FinishStream(reply, fullResponse, ids);
      StreamShown(reply, old(published), read, published, pendingRead, rafId.Some?, latestContent, old(rafId), old(latestContent));
    }

    /** The asynchronous part of `sendMessage`, after the request is posted: a stream that
        completes is read to its end and committed; a broken stream leaves its partial
        state; a failed request publishes nothing. Loading ends in every case. */
    method ReceiveReply(reply: ChatReply, ids: Uuid.UuidSource)
      requires Valid() && ids.Valid()
      modifies this`isLoading, this`messages, this`streamingContent, this`published, this`streamingId,
        this`latestContent, this`rafId, this`frameCallbacks, this`nextFrameHandle, ids
      ensures Valid() && ids.Valid() && old(ids.issued) <= ids.issued && !isLoading
      ensures ReplyMessages(old(messages), messages, reply, old(ids.issued))
      ensures Commits(reply) ==> Flushed(Received(reply.events))
      ensures !Commits(reply) ==> streamingId == old(streamingId)
      ensures !reply.Stream? ==>
        streamingContent == old(streamingContent) && rafId == old(rafId) && published == old(published)
      ensures ReplyShown(reply, old(published), published, rafId.Some?, latestContent, old(rafId), old(latestContent))
    {
      if reply.Stream? {
        ReceiveStream(reply, ids);
      } else {
        assert messages[..|messages|] == messages;
        NoStreamShown(reply, published, rafId, latestContent);
      }
      isLoading := false;
    }

    /** `sendMessage(content)`: appends the user's message, posts it, reads the stream
        while frames publish the growing buffer, then flushes once more and commits
        exactly one assistant message. A failed request or a broken stream commits
        nothing; the page stops loading in every case. */
    method SendMessage(content: string, ids: Uuid.UuidSource, reply: ChatReply) returns (request: ChatRequest)
      requires Valid() && ids.Valid()
      modifies this`messages, this`isLoading, this`shouldAutoScroll, this`streamingContent,
        this`published, this`streamingId, this`latestContent, this`rafId, this`frameCallbacks,
        this`nextFrameHandle, ids
      ensures Valid() && ids.Valid()
      ensures request.prompt.role == User && request.prompt.content == content && request.threadId == threadId
      ensures request.prompt.id !in old(ids.issued) && request.responseId !in old(ids.issued)
      ensures request.prompt.id != request.responseId
      ensures !isLoading && shouldAutoScroll
      ensures TurnMessages(old(messages), messages, Message(request.prompt.id, User, content), reply, old(ids.issued))
      ensures Commits(reply) ==> Flushed(Received(reply.events))
      ensures !reply.Stream? ==>
        streamingContent == "" && streamingId.Some? && rafId == old(rafId) &&
        published == old(published) + [""]
      ensures reply.Stream? && !reply.completes ==> streamingId.Some?
      ensures |published| > |old(published)|
      ensures ReplyShown(reply, old(published) + [""], published, rafId.Some?, latestContent, old(rafId), old(latestContent))
      ensures PublishedWithin(old(published), published, Arrived(reply), Pending(old(rafId), old(latestContent)))
    {
      request := BeginTurn(content, ids);
      ghost var begun := messages;
      ghost var issued := ids.issued;
      ReceiveReply(reply, ids);
      ComposeTurnMessages(old(messages), begun, messages, Message(request.prompt.id, User, content), reply,
        old(ids.issued), issued);
      PublishedWithinEmptyFirst(old(published), published, Arrived(reply), Pending(old(rafId), old(latestContent)));
    }

    /** `handleSubmit`: sends the trimmed input and clears it, unless the input trims to
        nothing or a reply is loading, in which case nothing changes. */
    method HandleSubmit(ids: Uuid.UuidSource, reply: ChatReply) returns (sent: Option<ChatRequest>)
      requires Valid() && ids.Valid()
      modifies this`input, this`messages, this`isLoading, this`shouldAutoScroll, this`streamingContent,
        this`published, this`streamingId, this`latestContent, this`rafId, this`frameCallbacks,
        this`nextFrameHandle, ids
      ensures Valid() && ids.Valid()
      ensures (Text.AllTrimmable(old(input)) || old(isLoading)) ==> sent.None? && unchanged(this) && unchanged(ids)
      ensures !(Text.AllTrimmable(old(input)) || old(isLoading)) ==>
        sent.Some? && sent.value.prompt.content == Text.Trim(old(input)) && sent.value.prompt.content != [] &&
        input == "" && !isLoading && |messages| > |old(messages)| &&
        messages[..|old(messages)| + 1] == old(messages) + [Message(sent.value.prompt.id, User, Text.Trim(old(input)))]
      ensures sent.Some? ==>
        TurnMessages(old(messages), messages, Message(sent.value.prompt.id, User, Text.Trim(old(input))), reply, old(ids.issued))
    {
      var text := Text.Trim(input);
      if text != [] && !isLoading {
        var request := SendMessage(text, ids, reply);
        assert TurnMessages(old(messages), messages, Message(request.prompt.id, User, text), reply, old(ids.issued));
        input := "";
        sent := Some(request);
      } else {
        sent := None;
      }
    }

    /** `handleFirstMessage`, the welcome screen's submit: marks the chat started and
        sends the message. */
    method HandleFirstMessage(message: string, ids: Uuid.UuidSource, reply: ChatReply) returns (request: ChatRequest)
      requires Valid() && ids.Valid()
      modifies this`hasStarted, this`messages, this`isLoading, this`shouldAutoScroll, this`streamingContent,
        this`published, this`streamingId, this`latestContent, this`rafId, this`frameCallbacks,
        this`nextFrameHandle, ids
      ensures Valid() && ids.Valid() && hasStarted && !isLoading
      ensures request.prompt.content == message && |messages| > |old(messages)|
      ensures messages[..|old(messages)| + 1] == old(messages) + [Message(request.prompt.id, User, message)]
      ensures TurnMessages(old(messages), messages, Message(request.prompt.id, User, message), reply, old(ids.issued))
    {
      hasStarted := true;
      request := SendMessage(message, ids, reply);
    }

    /** `handleNewChat`: empties the conversation, starts a new thread and removes the
        stored record. */
    method HandleNewChat(ids: Uuid.UuidSource)
      requires Valid() && ids.Valid()
      modifies this`messages, this`streamingContent, this`published, this`threadId, this`hasStarted,
        this`storage, ids
      ensures Valid() && ids.Valid()
      ensures messages == [] && streamingContent == "" && !hasStarted && storage.None?
      ensures threadId !in old(ids.issued) && ids.issued == old(ids.issued) + {threadId}
    {
      messages := [];
      Publish("");
      threadId := ids.RandomUuid();
      hasStarted := false;
      storage := None;
    }
  }
}
