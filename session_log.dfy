/**
 * The session log of src/lib/gemini.ts as values: the message and session
 * records, the browser's `localStorage` seen through `JSON.parse`, how a read
 * recovers the session, and the keep-the-last-ten rule that every write applies.
 */
module SessionLog {
  import opened Wrappers

  /** The one `localStorage` key the whole log lives under. */
  const SessionKey: string := "gemini-session"

  /** At most this many messages survive a write. */
  const MaxMessages: nat := 10

  datatype Role = User | Assistant

  datatype ChatMessage = ChatMessage(role: Role, content: string, timestamp: int, imageData: Option<string>)

  datatype SessionData = SessionData(messages: seq<ChatMessage>, lastActive: int)

  /**
   * What a stored text becomes under `JSON.parse`: a session record; text that
   * does not parse (the empty string included, which the source also treats as
   * missing); or a JSON value with no `messages` list to spread (`null`, `42`,
   * `{}`), which only a writer other than this log can leave there. Other
   * record-like values of the wrong shape are not modelled.
   */
  datatype Entry = Unparseable | Parsed(session: SessionData) | NotASession

  /**
   * The most recent `n` elements of `s`, defined by dropping the oldest one
   * while there are too many (first in, first out).
   */
  function KeepLast<T>(s: seq<T>, n: nat): (r: seq<T>)
    ensures |r| == if |s| <= n then |s| else n
    decreases |s|
  {
    if |s| <= n then s else KeepLast(s[1..], n)
  }

  /** JavaScript's `s.slice(-k)`: the last `k` elements, or all of `s` when it is shorter (or `k` is 0, as `-0` is 0). */
  function SliceFromEnd<T>(s: seq<T>, k: nat): (r: seq<T>)
    ensures |r| == if k == 0 || k >= |s| then |s| else k
    ensures forall i :: 0 <= i < |r| ==> r[i] == s[|s| - |r| + i]
  {
    if k == 0 || k >= |s| then s else s[|s| - k..]
  }

  /** Dropping the oldest one at a time keeps the same messages as the source's `slice(-n)`. */
  lemma {:induction false} KeepLastIsSlice<T>(s: seq<T>, n: nat)
    ensures KeepLast(s, n) == if |s| > n then s[|s| - n..] else s
    decreases |s|
  {
    if |s| > n {
      KeepLastIsSlice(s[1..], n);
      assert KeepLast(s, n) == KeepLast(s[1..], n);
      if |s| - 1 > n {
        assert s[1..][|s| - 1 - n..] == s[|s| - n..];
      } else {
        assert s[1..] == s[|s| - n..];
      }
    }
  }

  /**
   * The drop-oldest rule is JavaScript's `slice(-n)` applied only when the list
   * is longer than `n`; `n` must be positive, since `slice(-0)` keeps everything.
   */
  lemma KeepLastIsSliceFromEnd<T>(s: seq<T>, n: nat)
    requires n > 0
    ensures KeepLast(s, n) == if |s| > n then SliceFromEnd(s, n) else s
  {
    KeepLastIsSlice(s, n);
  }

  /** Trimming, appending more and trimming again is appending everything and trimming once. */
  lemma KeepLastAppend<T>(s: seq<T>, t: seq<T>, n: nat)
    ensures KeepLast(KeepLast(s, n) + t, n) == KeepLast(s + t, n)
  {
    var k := KeepLast(s, n);
    KeepLastIsSlice(s, n);
    KeepLastIsSlice(k + t, n);
    KeepLastIsSlice(s + t, n);
    var lhs := KeepLast(k + t, n);
    var rhs := KeepLast(s + t, n);
    assert |lhs| == |rhs|;
    forall x | 0 <= x < |lhs|
      ensures lhs[x] == rhs[x]
    {
      var y := |k| + |t| - |lhs| + x;
      var z := |s| - |k| + y;
      assert lhs[x] == (k + t)[y];
      assert rhs[x] == (s + t)[z];
      if y < |k| {
        assert (k + t)[y] == k[y] == s[z];
      } else {
        assert (k + t)[y] == t[y - |k|] == (s + t)[z];
      }
    }
  }

  /**
   * One write leaves between one and ten messages whatever was stored before:
   * the new message last, preceded by the newest of the old ones in their order.
   */
  lemma AppendOne(log: seq<ChatMessage>, m: ChatMessage)
    ensures var r := KeepLast(log + [m], MaxMessages);
      1 <= |r| <= MaxMessages && r[|r| - 1] == m && r[..|r| - 1] == log[|log| - (|r| - 1)..]
  {
    var s := log + [m];
    KeepLastIsSlice(s, MaxMessages);
    var r := KeepLast(s, MaxMessages);
    assert r == s[|s| - |r|..];
    assert r[..|r| - 1] == s[|s| - |r|..|s| - 1];
    assert s[..|log|] == log;
  }

  /**
   * The two writes of a successful analysis, a user message `u` then an
   * assistant message `a`, leave exactly the last ten of `log ++ [u, a]`.
   */
  lemma TwoWrites(log: seq<ChatMessage>, u: ChatMessage, a: ChatMessage)
    ensures KeepLast(KeepLast(log + [u], MaxMessages) + [a], MaxMessages) == KeepLast(log + [u, a], MaxMessages)
  {
    KeepLastAppend(log + [u], [a], MaxMessages);
    assert log + [u] + [a] == log + [u, a];
  }

  /** An eleventh message evicts exactly the oldest one and keeps the order of the other ten. */
  lemma EvictOldest<T>(s: seq<T>, m: T)
    requires |s| == MaxMessages
    ensures KeepLast(s + [m], MaxMessages) == s[1..] + [m]
  {
  }

  /** The log after writing the messages of `ms` one call at a time, starting from `log`. */
  function Replay(log: seq<ChatMessage>, ms: seq<ChatMessage>): (log': seq<ChatMessage>)
    decreases |ms|
  {
    if ms == [] then log else Replay(KeepLast(log + [ms[0]], MaxMessages), ms[1..])
  }

  /**
   * Any non-empty run of single-message writes leaves the last `min(|log| + |ms|, 10)`
   * messages of everything written, in the order written. N successful
   * analyses write 2N messages, so they leave `min(|log| + 2N, 10)`.
   */
  lemma {:induction false} ReplayIsKeepLast(log: seq<ChatMessage>, ms: seq<ChatMessage>)
    requires ms != []
    ensures Replay(log, ms) == KeepLast(log + ms, MaxMessages)
    ensures |Replay(log, ms)| == if |log| + |ms| <= MaxMessages then |log| + |ms| else MaxMessages
    decreases |ms|
  {
    var log' := KeepLast(log + [ms[0]], MaxMessages);
    assert log + [ms[0]] + ms[1..] == log + ms;
    if ms[1..] != [] {
      ReplayIsKeepLast(log', ms[1..]);
      KeepLastAppend(log + [ms[0]], ms[1..], MaxMessages);
    } else {
      assert ms == [ms[0]];
    }
  }

  /** A fresh, empty session stamped `now`, what every fallback of a read returns. */
  function EmptySession(now: int): (empty: SessionData)
    ensures empty.messages == [] && empty.lastActive == now
  {
    SessionData([], now)
  }

  /**
   * getSessionData, with a record of the wrong shape read as empty: the stored
   * session when there is a window and a parsed record under the key, otherwise
   * an empty session. It never fails.
   */
  function ReadSession(hasWindow: bool, items: map<string, Entry>, now: int): (d: SessionData)
    ensures !hasWindow || SessionKey !in items ==> d == EmptySession(now)
    ensures SessionKey in items && !items[SessionKey].Parsed? ==> d == EmptySession(now)
    ensures hasWindow && SessionKey in items && items[SessionKey].Parsed? ==> d == items[SessionKey].session
  {
    if !hasWindow || SessionKey !in items then EmptySession(now)
    else match items[SessionKey]
      case Parsed(session) => session
      case _ => EmptySession(now)
  }

  /**
   * getSessionHistory: the messages of the session read, empty without a
   * window, without the key, or when the stored text is not a session record.
   */
  function ReadHistory(hasWindow: bool, items: map<string, Entry>): (h: seq<ChatMessage>)
    ensures !hasWindow || SessionKey !in items ==> h == []
    ensures SessionKey in items && !items[SessionKey].Parsed? ==> h == []
    ensures hasWindow && SessionKey in items && items[SessionKey].Parsed? ==> h == items[SessionKey].session.messages
  {
    ReadSession(hasWindow, items, 0).messages
  }

  /**
   * getSessionData exactly as written: `JSON.parse` hands back whatever value the
   * text holds, so a value without a `messages` list comes back as it is, not
   * as a session (`None` here). Elsewhere it agrees with the corrected read.
   */
  function ReadAsWritten(hasWindow: bool, items: map<string, Entry>, now: int): (d: Option<SessionData>)
    ensures d.None? <==> hasWindow && SessionKey in items && items[SessionKey].NotASession?
    ensures d.Some? ==> d.value == ReadSession(hasWindow, items, now)
  {
    if !hasWindow || SessionKey !in items then Some(EmptySession(now))
    else match items[SessionKey]
      case Parsed(session) => Some(session)
      case Unparseable => Some(EmptySession(now))
      case NotASession => None
  }

  /**
   * updateSessionData exactly as written, on values: `None` when it throws,
   * which it does exactly when `[...currentSession.messages, newMessage]` meets
   * a value without a `messages` list.
   */
  function UpdateAsWritten(hasWindow: bool, items: map<string, Entry>, m: ChatMessage, now: int): (written: Option<map<string, Entry>>)
    ensures written.None? <==> hasWindow && SessionKey in items && items[SessionKey].NotASession?
    ensures !hasWindow ==> written == Some(items)
  {
    if !hasWindow then Some(items)
    else match ReadAsWritten(hasWindow, items, now)
      case None => None
      case Some(current) =>
        var messages := current.messages + [m];
        var kept := if |messages| > MaxMessages then SliceFromEnd(messages, MaxMessages) else messages;
        Some(items[SessionKey := Parsed(SessionData(kept, now))])
  }

  /**
   * Where the stored record has the right shape, or is missing or unparseable,
   * the code as written agrees with the model: it keeps the last ten messages.
   */
  lemma UpdateAsWrittenAgrees(hasWindow: bool, items: map<string, Entry>, m: ChatMessage, now: int)
    requires hasWindow
    requires SessionKey !in items || !items[SessionKey].NotASession?
    ensures UpdateAsWritten(hasWindow, items, m, now)
         == Some(items[SessionKey := Parsed(SessionData(KeepLast(ReadHistory(hasWindow, items) + [m], MaxMessages), now))])
  {
    assert ReadAsWritten(hasWindow, items, now) == Some(ReadSession(hasWindow, items, now));
    KeepLastIsSliceFromEnd(ReadHistory(hasWindow, items) + [m], MaxMessages);
  }

  /**
   * A stored JSON value without a `messages` list (the text `null`, say)
   * breaks the log as written: the read does not yield a session and every
   * write throws, while the corrected read sees an empty log.
   */
  lemma NotASessionBreaksLog(items: map<string, Entry>, m: ChatMessage, now: int)
    requires SessionKey in items && items[SessionKey] == NotASession
    ensures ReadAsWritten(true, items, now) == None
    ensures UpdateAsWritten(true, items, m, now) == None
    ensures ReadSession(true, items, now) == EmptySession(now)
  {
  }
}
