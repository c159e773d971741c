/**
 * The conversation bookkeeping of the Perplexity provider: a bounded,
 * recency-ordered map from conversation id to the upstream thread serving
 * it. Each conversation serves a number of turns before it is moved to a
 * fresh thread; when the map is full, the least recently used conversation
 * is evicted. Thread ids and clock readings are supplied by the caller.
 */
module Conversations {
  import opened Wrappers
  import opened Text
  import opened Dicts

  /** One conversation's entry: its thread, the backend id learnt from the last reply, how many turns, when last used. */
  datatype Session = Session(threadUuid: string, backendUuid: Option<string>, turnCount: int, lastUsed: real)

  /** What `get_or_create_conversation` reports to the request builder. */
  datatype ConversationInfo = ConversationInfo(threadUuid: string, backendUuid: Option<string>, isNew: bool, turnCount: int)

  /** A call's new map and its report; a None report means `popitem` raised `KeyError` on an empty map. */
  datatype Outcome = Outcome(entries: Dict<Session>, info: Option<ConversationInfo>)

  /** Per-conversation figures of `get_stats`. */
  datatype SessionStats = SessionStats(turnCount: int, threadPrefix: string, hasBackendUuid: bool)

  datatype Stats = Stats(
    activeConversations: nat,
    maxConversations: int,
    maxTurnsPerConversation: int,
    conversations: Dict<SessionStats>)

  /** A missing or empty conversation id stands for "default". */
  function EffectiveId(conversationId: Option<string>): (r: string)
    ensures r != ""
    ensures conversationId.None? || conversationId.value == "" ==> r == "default"
    ensures conversationId.Some? && conversationId.value != "" ==> r == conversationId.value
  {
    if conversationId.None? || conversationId.value == "" then "default" else conversationId.value
  }

  /** The map without the entry at position `i`, the others in their order. */
  function RemoveAt(d: Dict<Session>, i: nat): (r: Dict<Session>)
    requires i < |d|
    ensures |r| == |d| - 1
    ensures forall j :: 0 <= j < i ==> r[j] == d[j]
    ensures forall j :: i <= j < |r| ==> r[j] == d[j + 1]
  {
    d[..i] + d[i + 1..]
  }

  /** The entry a new conversation starts with. */
  function NewSession(threadUuid: string, now: real): Session {
    Session(threadUuid, None, 1, now)
  }

  /** A rotated conversation: a fresh thread, no backend id, no turns yet. */
  function RotatedSession(threadUuid: string, now: real): Session {
    Session(threadUuid, None, 0, now)
  }

  /**
   * The effect of one `get_or_create_conversation` call for the (already
   * defaulted) id `id`, with `newThread` the thread id `uuid4` would produce.
   */
  function Resolve(entries: Dict<Session>, maxTurns: int, maxConversations: int,
                   id: string, newThread: string, now: real): Outcome
  {
    match IndexOf(entries, id)
    case Some(i) =>
      var conv := entries[i].1;
      if conv.turnCount >= maxTurns then
        Outcome(entries[i := (id, RotatedSession(newThread, now))],
                Some(ConversationInfo(newThread, None, true, 0)))
      else
        var conv' := conv.(turnCount := conv.turnCount + 1, lastUsed := now);
        Outcome(RemoveAt(entries, i) + [(id, conv')],
                Some(ConversationInfo(conv.threadUuid, conv.backendUuid, false, conv.turnCount + 1)))
    case None =>
      if maxConversations <= 0 then Outcome([], None)
      else
        var kept := if |entries| >= maxConversations then entries[|entries| - maxConversations + 1..] else entries;
        Outcome(kept + [(id, NewSession(newThread, now))], Some(ConversationInfo(newThread, None, true, 1)))
  }

  /** `update_backend_uuid`: the named entry learns its backend id; an absent id changes nothing. */
  function WithBackend(entries: Dict<Session>, id: string, backendUuid: string): Dict<Session> {
    match IndexOf(entries, id)
    case Some(i) => entries[i := (id, entries[i].1.(backendUuid := Some(backendUuid)))]
    case None => entries
  }

  /** `reset_conversation`: the named entry is deleted if present. */
  function Without(entries: Dict<Session>, id: string): Dict<Session> {
    match IndexOf(entries, id)
    case Some(i) => RemoveAt(entries, i)
    case None => entries
  }

  /** The stats figures of one entry. */
  function EntryStats(s: Session): (r: SessionStats)
    ensures r.turnCount == s.turnCount
    ensures r.hasBackendUuid <==> s.backendUuid.Some?
    ensures EndsWith(r.threadPrefix, "...") && |r.threadPrefix| <= 11
    ensures |s.threadUuid| >= 8 ==> r.threadPrefix == s.threadUuid[..8] + "..."
    ensures |s.threadUuid| < 8 ==> r.threadPrefix == s.threadUuid + "..."
  {
    SessionStats(s.turnCount, Take(s.threadUuid, 8) + "...", s.backendUuid.Some?)
  }

  class ConversationManager {
    const maxTurns: int
    const maxConversations: int
    var conversations: Dict<Session>

    /** An OrderedDict never holds a key twice. */
    ghost predicate Valid()
      reads this
    {
      DistinctKeys(conversations)
    }

    constructor(maxTurns: int, maxConversations: int)
      ensures this.maxTurns == maxTurns && this.maxConversations == maxConversations
      ensures conversations == [] && Valid()
    {
      this.maxTurns := maxTurns;
      this.maxConversations := maxConversations;
      conversations := [];
    }

    /**
     * `get_or_create_conversation`. A known id below the turn limit moves to the
     * end with one more turn; at the limit it is rotated in place; an unknown id
     * evicts from the front while the map is full and is then appended.
     */
    method GetOrCreateConversation(conversationId: Option<string>, freshThreadUuid: string, now: real)
      returns (info: Option<ConversationInfo>)
      requires Valid()
      modifies this
      ensures Valid()
      ensures var o := Resolve(old(conversations), maxTurns, maxConversations,
                               EffectiveId(conversationId), freshThreadUuid, now);
              conversations == o.entries && info == o.info
    {
      var id := EffectiveId(conversationId);
      info := GetOrCreateById(id, freshThreadUuid, now);
    }

    /** The body of `get_or_create_conversation` once the id has been defaulted. */
    method GetOrCreateById(id: string, freshThreadUuid: string, now: real)
      returns (info: Option<ConversationInfo>)
      requires Valid()
      modifies this
      ensures Valid()
      ensures var o := Resolve(old(conversations), maxTurns, maxConversations, id, freshThreadUuid, now);
              conversations == o.entries && info == o.info
    {
      ResolveDistinct(conversations, maxTurns, maxConversations, id, freshThreadUuid, now);
      ghost var before := conversations;
      var found := IndexOf(conversations, id);
      if found.Some? {
        var i := found.value;
        var conv := conversations[i].1;
        if conv.turnCount >= maxTurns {
          ResolveRotates(before, maxTurns, maxConversations, id, freshThreadUuid, now, i);
          conversations := conversations[i := (id, Session(freshThreadUuid, None, 0, now))];
          return Some(ConversationInfo(freshThreadUuid, None, true, 0));
        }
        ResolveContinues(before, maxTurns, maxConversations, id, freshThreadUuid, now, i);
        var updated := conv.(turnCount := conv.turnCount + 1, lastUsed := now);
        conversations := conversations[..i] + conversations[i + 1..];
        assert conversations == RemoveAt(before, i);
        conversations := conversations + [(id, updated)];
        return Some(ConversationInfo(updated.threadUuid, updated.backendUuid, false, updated.turnCount));
      }
      while |conversations| >= maxConversations
        invariant |conversations| <= |before|
        invariant conversations == before[|before| - |conversations|..]
        invariant |before| < maxConversations ==> conversations == before
        invariant |before| >= maxConversations ==> |conversations| + 1 >= maxConversations
        decreases |conversations|
      {
        if conversations == [] {
          ResolveUnknown(before, maxTurns, maxConversations, id, freshThreadUuid, now);
          return None;
        }
        conversations := conversations[1..];
      }
      ResolveUnknown(before, maxTurns, maxConversations, id, freshThreadUuid, now);
      assert conversations == if |before| >= maxConversations then before[|before| - maxConversations + 1..] else before;
      conversations := conversations + [(id, Session(freshThreadUuid, None, 1, now))];
      info := Some(ConversationInfo(freshThreadUuid, None, true, 1));
    }

    /** `update_backend_uuid` for the id exactly as given. */
    method UpdateBackendUuid(conversationId: string, backendUuid: string)
      requires Valid()
      modifies this
      ensures Valid()
      ensures conversations == WithBackend(old(conversations), conversationId, backendUuid)
    {
      WithBackendKeys(conversations, conversationId, backendUuid);
      var found := IndexOf(conversations, conversationId);
      if found.Some? {
        var i := found.value;
        conversations := conversations[i := (conversationId, conversations[i].1.(backendUuid := Some(backendUuid)))];
      }
    }

    /** `reset_conversation`. */
    method ResetConversation(conversationId: string)
      requires Valid()
      modifies this
      ensures Valid()
      ensures conversations == Without(old(conversations), conversationId)
    {
      WithoutDistinct(conversations, conversationId);
      var found := IndexOf(conversations, conversationId);
      if found.Some? {
        conversations := conversations[..found.value] + conversations[found.value + 1..];
      }
    }

    /** `get_stats`: counts and limits, and for each conversation in recency order its turn count, thread prefix and backend flag. */
    function GetStats(): (r: Stats)
      reads this
      ensures r.activeConversations == |conversations|
      ensures r.maxConversations == maxConversations && r.maxTurnsPerConversation == maxTurns
      ensures Keys(r.conversations) == Keys(conversations)
      ensures forall i :: 0 <= i < |conversations| ==> r.conversations[i].1 == EntryStats(conversations[i].1)
    {
      var cs := conversations;
      var r := Stats(|cs|, maxConversations, maxTurns,
                     seq(|cs|, i requires 0 <= i < |cs| => (cs[i].0, EntryStats(cs[i].1))));
      assert Keys(r.conversations) == Keys(cs);
      r
    }
  }

  // ---------------------------------------------------------------------
  // Properties of the bookkeeping
  // ---------------------------------------------------------------------

  /** A suffix of a map with distinct keys has distinct keys. */
  lemma SuffixDistinct(d: Dict<Session>, k: nat)
    requires DistinctKeys(d) && k <= |d|
    ensures DistinctKeys(d[k..])
  {
    forall i, j | 0 <= i < j < |d| - k ensures d[k..][i].0 != d[k..][j].0 {
      assert d[k..][i] == d[k + i] && d[k..][j] == d[k + j];
    }
  }

  /** Removing an entry keeps the others distinct and drops its key. */
  lemma RemoveAtKeys(d: Dict<Session>, i: nat)
    requires DistinctKeys(d) && i < |d|
    ensures DistinctKeys(RemoveAt(d, i))
    ensures forall j :: 0 <= j < |RemoveAt(d, i)| ==> RemoveAt(d, i)[j].0 != d[i].0
  {
    var r := RemoveAt(d, i);
    forall a, b | 0 <= a < b < |r| ensures r[a].0 != r[b].0 {
      var a' := if a < i then a else a + 1;
      var b' := if b < i then b else b + 1;
      assert r[a] == d[a'] && r[b] == d[b'] && a' < b';
    }
    forall j | 0 <= j < |r| ensures r[j].0 != d[i].0 {
      var j' := if j < i then j else j + 1;
      assert r[j] == d[j'] && j' != i;
    }
  }

  lemma WithBackendKeys(entries: Dict<Session>, id: string, backendUuid: string)
    requires DistinctKeys(entries)
    ensures Keys(WithBackend(entries, id, backendUuid)) == Keys(entries)
    ensures DistinctKeys(WithBackend(entries, id, backendUuid))
  {
    var r := WithBackend(entries, id, backendUuid);
    assert Keys(r) == Keys(entries);
    forall a, b | 0 <= a < b < |r| ensures r[a].0 != r[b].0 {
      assert r[a].0 == Keys(r)[a] == Keys(entries)[a] == entries[a].0;
      assert r[b].0 == Keys(r)[b] == Keys(entries)[b] == entries[b].0;
    }
  }

  lemma WithoutDistinct(entries: Dict<Session>, id: string)
    requires DistinctKeys(entries)
    ensures DistinctKeys(Without(entries, id))
  {
    if IndexOf(entries, id).Some? {
      RemoveAtKeys(entries, IndexOf(entries, id).value);
    }
  }

  /** Every call keeps the conversation ids distinct. */
  /** The turn-limit branch of `Resolve`, for a known position. */
  lemma ResolveRotates(entries: Dict<Session>, maxTurns: int, maxConversations: int, id: string, newThread: string, now: real, i: nat)
    requires IndexOf(entries, id) == Some(i) && entries[i].1.turnCount >= maxTurns
    ensures Resolve(entries, maxTurns, maxConversations, id, newThread, now) ==
      Outcome(entries[i := (id, RotatedSession(newThread, now))], Some(ConversationInfo(newThread, None, true, 0)))
  {
  }

  /** The continuing branch of `Resolve`, for a known position. */
  lemma ResolveContinues(entries: Dict<Session>, maxTurns: int, maxConversations: int, id: string, newThread: string, now: real, i: nat)
    requires IndexOf(entries, id) == Some(i) && entries[i].1.turnCount < maxTurns
    ensures var s := entries[i].1;
      Resolve(entries, maxTurns, maxConversations, id, newThread, now) ==
      Outcome(RemoveAt(entries, i) + [(id, s.(turnCount := s.turnCount + 1, lastUsed := now))],
              Some(ConversationInfo(s.threadUuid, s.backendUuid, false, s.turnCount + 1)))
  {
  }

  /** The unknown-id branch of `Resolve`. */
  lemma ResolveUnknown(entries: Dict<Session>, maxTurns: int, maxConversations: int, id: string, newThread: string, now: real)
    requires IndexOf(entries, id).None?
    ensures maxConversations <= 0 ==> Resolve(entries, maxTurns, maxConversations, id, newThread, now) == Outcome([], None)
    ensures maxConversations > 0 ==>
      var kept := if |entries| >= maxConversations then entries[|entries| - maxConversations + 1..] else entries;
      Resolve(entries, maxTurns, maxConversations, id, newThread, now) ==
      Outcome(kept + [(id, NewSession(newThread, now))], Some(ConversationInfo(newThread, None, true, 1)))
  {
  }

  lemma ResolveDistinct(entries: Dict<Session>, maxTurns: int, maxConversations: int, id: string, newThread: string, now: real)
    requires DistinctKeys(entries)
    ensures DistinctKeys(Resolve(entries, maxTurns, maxConversations, id, newThread, now).entries)
  {
    match IndexOf(entries, id)
    case Some(i) =>
      if entries[i].1.turnCount < maxTurns {
        RemoveAtKeys(entries, i);
      }
    case None =>
      if maxConversations > 0 && |entries| >= maxConversations {
        SuffixDistinct(entries, |entries| - maxConversations + 1);
      }
  }

  /** With at least one slot, the map never grows past `max_conversations`. */
  lemma ResolveBounded(entries: Dict<Session>, maxTurns: int, maxConversations: int, id: string, newThread: string, now: real)
    requires maxConversations >= 1 && |entries| <= maxConversations
    ensures |Resolve(entries, maxTurns, maxConversations, id, newThread, now).entries| <= maxConversations
  {
  }

  /** With at least one slot, every call answers, and afterwards the id is in the map. */
  lemma ResolveAnswers(entries: Dict<Session>, maxTurns: int, maxConversations: int, id: string, newThread: string, now: real)
    requires maxConversations >= 1
    ensures var o := Resolve(entries, maxTurns, maxConversations, id, newThread, now);
            o.info.Some? && HasKey(o.entries, id)
  {
    var o := Resolve(entries, maxTurns, maxConversations, id, newThread, now);
    match IndexOf(entries, id)
    case Some(i) =>
      if entries[i].1.turnCount >= maxTurns {
        assert o.entries[i].0 == id;
      } else {
        assert o.entries[|o.entries| - 1].0 == id;
      }
    case None =>
      assert o.entries[|o.entries| - 1].0 == id;
  }

  /** Without slots the eviction loop empties the map and `popitem` raises. */
  lemma ResolveNoCapacity(entries: Dict<Session>, maxTurns: int, maxConversations: int, id: string, newThread: string, now: real)
    requires maxConversations <= 0 && !HasKey(entries, id)
    ensures Resolve(entries, maxTurns, maxConversations, id, newThread, now) == Outcome([], None)
  {
  }

  /** An unknown id starts a new conversation on a fresh thread, at the end of the recency order. */
  lemma NewConversation(entries: Dict<Session>, maxTurns: int, maxConversations: int, id: string, newThread: string, now: real)
    requires maxConversations >= 1 && !HasKey(entries, id)
    ensures var o := Resolve(entries, maxTurns, maxConversations, id, newThread, now);
            o.info == Some(ConversationInfo(newThread, None, true, 1)) &&
            |o.entries| > 0 && o.entries[|o.entries| - 1] == (id, NewSession(newThread, now))
  {
  }

  /** At capacity, exactly the least recently used conversation is evicted; below it, none is. */
  lemma EvictsLeastRecentlyUsed(entries: Dict<Session>, maxTurns: int, maxConversations: int, id: string, newThread: string, now: real)
    requires maxConversations >= 1 && !HasKey(entries, id) && |entries| <= maxConversations
    ensures Resolve(entries, maxTurns, maxConversations, id, newThread, now).entries ==
      (if |entries| == maxConversations then entries[1..] else entries) + [(id, NewSession(newThread, now))]
  {
  }

  /** At the turn limit a conversation moves to a fresh thread, keeping its key and its place. */
  lemma RotationInPlace(entries: Dict<Session>, maxTurns: int, maxConversations: int, id: string, newThread: string, now: real, i: nat)
    requires DistinctKeys(entries) && i < |entries| && entries[i].0 == id
    requires entries[i].1.turnCount >= maxTurns
    ensures var o := Resolve(entries, maxTurns, maxConversations, id, newThread, now);
            o.info == Some(ConversationInfo(newThread, None, true, 0)) &&
            Keys(o.entries) == Keys(entries) &&
            o.entries[i].1 == RotatedSession(newThread, now) &&
            forall j :: 0 <= j < |entries| && j != i ==> o.entries[j] == entries[j]
  {
    GetAt(entries, i);
    var o := Resolve(entries, maxTurns, maxConversations, id, newThread, now);
    assert Keys(o.entries) == Keys(entries);
  }

  /** Below the limit a conversation keeps its thread and backend, gains a turn and becomes the most recent. */
  lemma ContinueMovesToEnd(entries: Dict<Session>, maxTurns: int, maxConversations: int, id: string, newThread: string, now: real, i: nat)
    requires DistinctKeys(entries) && i < |entries| && entries[i].0 == id
    requires entries[i].1.turnCount < maxTurns
    ensures var o := Resolve(entries, maxTurns, maxConversations, id, newThread, now);
            var s := entries[i].1;
            o.info == Some(ConversationInfo(s.threadUuid, s.backendUuid, false, s.turnCount + 1)) &&
            o.entries == RemoveAt(entries, i) + [(id, Session(s.threadUuid, s.backendUuid, s.turnCount + 1, now))]
  {
    GetAt(entries, i);
  }

  /** Retained conversations other than the one asked for keep their entries. */
  lemma ResolveOthersUnchanged(entries: Dict<Session>, maxTurns: int, maxConversations: int, id: string, newThread: string, now: real, k: string)
    requires DistinctKeys(entries) && k != id
    ensures var r := Resolve(entries, maxTurns, maxConversations, id, newThread, now).entries;
            HasKey(r, k) ==> Get(r, k) == Get(entries, k)
  {
    var r := Resolve(entries, maxTurns, maxConversations, id, newThread, now).entries;
    ResolveDistinct(entries, maxTurns, maxConversations, id, newThread, now);
    if HasKey(r, k) {
      var j := IndexOf(r, k).value;
      var j' := SourcePosition(entries, maxTurns, maxConversations, id, newThread, now, j);
      GetAt(entries, j');
    }
  }

  /** Where a retained entry of another conversation came from in the old map. */
  lemma SourcePosition(entries: Dict<Session>, maxTurns: int, maxConversations: int, id: string, newThread: string, now: real, j: nat)
    returns (j': nat)
    requires j < |Resolve(entries, maxTurns, maxConversations, id, newThread, now).entries|
    requires Resolve(entries, maxTurns, maxConversations, id, newThread, now).entries[j].0 != id
    ensures j' < |entries| && entries[j'] == Resolve(entries, maxTurns, maxConversations, id, newThread, now).entries[j]
  {
    var r := Resolve(entries, maxTurns, maxConversations, id, newThread, now).entries;
    match IndexOf(entries, id)
    case Some(i) =>
      if entries[i].1.turnCount >= maxTurns {
        j' := j;
      } else {
        j' := if j < i then j else j + 1;
      }
    case None =>
      if |entries| >= maxConversations {
        j' := |entries| - maxConversations + 1 + j;
      } else {
        j' := j;
      }
  }

  /** `update_backend_uuid` sets only the named entry's backend id and keeps every key in place. */
  lemma UpdateBackendEffect(entries: Dict<Session>, id: string, backendUuid: string)
    requires DistinctKeys(entries)
    ensures Keys(WithBackend(entries, id, backendUuid)) == Keys(entries)
    ensures HasKey(entries, id) ==>
      Get(WithBackend(entries, id, backendUuid), id) == Some(Get(entries, id).value.(backendUuid := Some(backendUuid)))
    ensures !HasKey(entries, id) ==> WithBackend(entries, id, backendUuid) == entries
    ensures forall j :: 0 <= j < |entries| && entries[j].0 != id ==> WithBackend(entries, id, backendUuid)[j] == entries[j]
  {
    WithBackendKeys(entries, id, backendUuid);
    if HasKey(entries, id) {
      GetAt(WithBackend(entries, id, backendUuid), IndexOf(entries, id).value);
    }
  }

  /** After an update, the next ordinary turn hands the backend id to the request builder. */
  lemma UpdateThenContinue(entries: Dict<Session>, maxTurns: int, maxConversations: int, id: string, b: string, newThread: string, now: real)
    requires DistinctKeys(entries) && HasKey(entries, id) && Get(entries, id).value.turnCount < maxTurns
    ensures var info := Resolve(WithBackend(entries, id, b), maxTurns, maxConversations, id, newThread, now).info;
            info.Some? && info.value.backendUuid == Some(b) && !info.value.isNew
  {
    var i := IndexOf(entries, id).value;
    WithBackendKeys(entries, id, b);
    GetAt(WithBackend(entries, id, b), i);
  }

  /** `reset_conversation` removes the id, keeps the others in order, and doing it twice is doing it once. */
  lemma ResetEffect(entries: Dict<Session>, id: string)
    requires DistinctKeys(entries)
    ensures !HasKey(Without(entries, id), id)
    ensures Without(Without(entries, id), id) == Without(entries, id)
    ensures forall k :: k != id ==> Get(Without(entries, id), k) == Get(entries, k)
    ensures !HasKey(entries, id) ==> Without(entries, id) == entries
  {
    var r := Without(entries, id);
    if HasKey(entries, id) {
      var i := IndexOf(entries, id).value;
      RemoveAtKeys(entries, i);
      forall k | k != id ensures Get(r, k) == Get(entries, k) {
        if HasKey(r, k) {
          var j := IndexOf(r, k).value;
          GetAt(entries, if j < i then j else j + 1);
        }
        if HasKey(entries, k) {
          var j := IndexOf(entries, k).value;
          assert j != i;
          GetAt(r, if j < i then j else j - 1);
        }
      }
    }
  }

  /** After a reset the id is served as a brand-new conversation. */
  lemma ResetThenResolve(entries: Dict<Session>, maxTurns: int, maxConversations: int, id: string, newThread: string, now: real)
    requires DistinctKeys(entries) && maxConversations >= 1
    ensures var o := Resolve(Without(entries, id), maxTurns, maxConversations, id, newThread, now);
      o.info == Some(ConversationInfo(newThread, None, true, 1)) &&
      |o.entries| > 0 && o.entries[|o.entries| - 1] == (id, NewSession(newThread, now))
  {
    ResetEffect(entries, id);
    NewConversation(Without(entries, id), maxTurns, maxConversations, id, newThread, now);
  }

  /** `n` successive calls for the same id, the k-th getting thread id `newThread[k]`; the reports in order. */
  function Run(entries: Dict<Session>, maxTurns: int, maxConversations: int, id: string,
               newThread: seq<string>, now: real): (Dict<Session>, seq<Option<ConversationInfo>>)
    decreases |newThread|
  {
    if newThread == [] then (entries, [])
    else
      var o := Resolve(entries, maxTurns, maxConversations, id, newThread[0], now);
      var rest := Run(o.entries, maxTurns, maxConversations, id, newThread[1..], now);
      (rest.0, [o.info] + rest.1)
  }

  /** A conversation at turn `t` keeps its thread for the next calls while the count stays within the limit. */
  lemma {:induction false} RunContinues(entries: Dict<Session>, maxTurns: int, maxConversations: int, id: string,
                                        newThread: seq<string>, now: real, thread: string, t: int)
    requires DistinctKeys(entries) && HasKey(entries, id)
    requires Get(entries, id).value.threadUuid == thread && Get(entries, id).value.backendUuid == None
    requires Get(entries, id).value.turnCount == t && t + |newThread| <= maxTurns
    ensures var (final, infos) := Run(entries, maxTurns, maxConversations, id, newThread, now);
            |infos| == |newThread| &&
            (forall k :: 0 <= k < |newThread| ==> infos[k] == Some(ConversationInfo(thread, None, false, t + k + 1))) &&
            DistinctKeys(final) && HasKey(final, id) &&
            Get(final, id).value.threadUuid == thread && Get(final, id).value.backendUuid == None &&
            Get(final, id).value.turnCount == t + |newThread|
    decreases |newThread|
  {
    if newThread != [] {
      var i := IndexOf(entries, id).value;
      var o := Resolve(entries, maxTurns, maxConversations, id, newThread[0], now);
      ContinueMovesToEnd(entries, maxTurns, maxConversations, id, newThread[0], now, i);
      ResolveDistinct(entries, maxTurns, maxConversations, id, newThread[0], now);
      GetAt(o.entries, |o.entries| - 1);
      RunContinues(o.entries, maxTurns, maxConversations, id, newThread[1..], now, thread, t + 1);
      var rest := Run(o.entries, maxTurns, maxConversations, id, newThread[1..], now);
      RunStep(entries, maxTurns, maxConversations, id, newThread, now);
      forall k | 0 <= k < |newThread|
        ensures ([o.info] + rest.1)[k] == Some(ConversationInfo(thread, None, false, t + k + 1))
      {
        if k > 0 {
          assert ([o.info] + rest.1)[k] == rest.1[k - 1];
        }
      }
    }
  }

  /** One call, then the rest. */
  lemma RunStep(entries: Dict<Session>, maxTurns: int, maxConversations: int, id: string,
                newThread: seq<string>, now: real)
    requires newThread != []
    ensures var o := Resolve(entries, maxTurns, maxConversations, id, newThread[0], now);
            var rest := Run(o.entries, maxTurns, maxConversations, id, newThread[1..], now);
            Run(entries, maxTurns, maxConversations, id, newThread, now) == (rest.0, [o.info] + rest.1)
  {
  }

  /** A fresh id's first call opens a thread that the following calls keep, counting turns from 1. */
  lemma NewThenContinue(entries: Dict<Session>, maxTurns: int, maxConversations: int, id: string,
                        newThread: seq<string>, now: real)
    requires DistinctKeys(entries) && !HasKey(entries, id)
    requires maxConversations >= 1 && 1 <= |newThread| <= maxTurns
    ensures var (final, infos) := Run(entries, maxTurns, maxConversations, id, newThread, now);
            |infos| == |newThread| &&
            (forall k :: 0 <= k < |newThread| ==> infos[k] == Some(ConversationInfo(newThread[0], None, k == 0, k + 1))) &&
            DistinctKeys(final) && HasKey(final, id) && Get(final, id).value.turnCount == |newThread|
  {
    var o := Resolve(entries, maxTurns, maxConversations, id, newThread[0], now);
    NewConversation(entries, maxTurns, maxConversations, id, newThread[0], now);
    ResolveDistinct(entries, maxTurns, maxConversations, id, newThread[0], now);
    GetAt(o.entries, |o.entries| - 1);
    RunContinues(o.entries, maxTurns, maxConversations, id, newThread[1..], now, newThread[0], 1);
    var rest := Run(o.entries, maxTurns, maxConversations, id, newThread[1..], now);
    var infos := [o.info] + rest.1;
    RunStep(entries, maxTurns, maxConversations, id, newThread, now);
    forall k | 0 <= k < |newThread|
      ensures infos[k] == Some(ConversationInfo(newThread[0], None, k == 0, k + 1))
    {
      if k > 0 {
        assert infos[k] == rest.1[k - 1];
      }
    }
  }

  /**
   * Turn counting on a fresh id: calls 1 to `max_turns` report turns 1 to
   * `max_turns` on the first thread, and call `max_turns + 1` rotates to the
   * thread id supplied for it.
   */
  lemma TurnsThenRotation(entries: Dict<Session>, maxTurns: int, maxConversations: int, id: string,
                          newThread: seq<string>, now: real)
    requires DistinctKeys(entries) && !HasKey(entries, id)
    requires maxConversations >= 1 && maxTurns >= 1 && |newThread| == maxTurns + 1
    ensures var infos := Run(entries, maxTurns, maxConversations, id, newThread, now).1;
            |infos| == maxTurns + 1 &&
            (forall k :: 0 <= k < maxTurns ==> infos[k] == Some(ConversationInfo(newThread[0], None, k == 0, k + 1))) &&
            infos[maxTurns] == Some(ConversationInfo(newThread[maxTurns], None, true, 0))
  {
    var first := newThread[..maxTurns];
    NewThenContinue(entries, maxTurns, maxConversations, id, first, now);
    var (e1, infos1) := Run(entries, maxTurns, maxConversations, id, first, now);
    RunSplit(entries, maxTurns, maxConversations, id, first, [newThread[maxTurns]], now);
    assert first + [newThread[maxTurns]] == newThread;
    RotationInPlace(e1, maxTurns, maxConversations, id, newThread[maxTurns], now, IndexOf(e1, id).value);
    var last := Resolve(e1, maxTurns, maxConversations, id, newThread[maxTurns], now);
    assert Run(e1, maxTurns, maxConversations, id, [newThread[maxTurns]], now).1 == [last.info];
  }

  /** Running calls in two batches is running them in one. */
  lemma {:induction false} RunSplit(entries: Dict<Session>, maxTurns: int, maxConversations: int, id: string,
                                    a: seq<string>, b: seq<string>, now: real)
    ensures var (e1, i1) := Run(entries, maxTurns, maxConversations, id, a, now);
            var (e2, i2) := Run(e1, maxTurns, maxConversations, id, b, now);
            Run(entries, maxTurns, maxConversations, id, a + b, now) == (e2, i1 + i2)
    decreases |a|
  {
    if a == [] {
      assert a + b == b;
      var (e2, i2) := Run(entries, maxTurns, maxConversations, id, b, now);
      assert [] + i2 == i2;
    } else {
      var o := Resolve(entries, maxTurns, maxConversations, id, a[0], now);
      assert (a + b)[0] == a[0] && (a + b)[1..] == a[1..] + b;
      RunSplit(o.entries, maxTurns, maxConversations, id, a[1..], b, now);
      var (e1, i1) := Run(o.entries, maxTurns, maxConversations, id, a[1..], now);
      var (e2, i2) := Run(e1, maxTurns, maxConversations, id, b, now);
      assert [o.info] + (i1 + i2) == ([o.info] + i1) + i2;
    }
  }

  /**
   * A rotated conversation serves one more call than a new one: after a
   * rotation (turn 0), the next `max_turns` calls stay on the rotated thread.
   */
  lemma RotatedThreadServesFullTurns(entries: Dict<Session>, maxTurns: int, maxConversations: int, id: string,
                                     newThread: seq<string>, now: real, thread: string)
    requires DistinctKeys(entries) && HasKey(entries, id)
    requires Get(entries, id).value == RotatedSession(thread, now)
    requires maxTurns >= 1 && |newThread| == maxTurns
    ensures var infos := Run(entries, maxTurns, maxConversations, id, newThread, now).1;
            |infos| == maxTurns &&
            forall k :: 0 <= k < maxTurns ==> infos[k] == Some(ConversationInfo(thread, None, false, k + 1))
  {
    RunContinues(entries, maxTurns, maxConversations, id, newThread, now, thread, 0);
  }
}
