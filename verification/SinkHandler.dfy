/** The handler of one sink: the ack or nack decision per message, and the bounded set of
    messages stalled on a permanent error. */
module SinkHandler {
  import opened Wrappers

  // What Process returned: nil, or an error that may wrap ErrSkipped and may be marked permanent.
  datatype Verdict = Nil | Err(skipped: bool, permanent: bool, text: string)

  // What became of one message: it did not decode, or Process was called on it.
  datatype Handling = Undecodable(reason: string) | Processed(verdict: Verdict)

  const MAX_STALLED := 1000
  const LOG_EVERY := 10

  // Process accepted the message: nil, or nothing to do for this sink.
  predicate Succeeds(h: Handling) {
    h.Processed? && (h.verdict.Nil? || h.verdict.skipped)
  }

  predicate Stalls(h: Handling) {
    h.Undecodable? || (h.verdict.Err? && !h.verdict.skipped && h.verdict.permanent)
  }

  function ReasonOf(h: Handling): string {
    match h
    case Undecodable(reason) => reason
    case Processed(Nil) => ""
    case Processed(Err(_, _, text)) => text
  }

  // ----- the stalled set -----

  datatype StalledInfo = StalledInfo(reason: string, firstSeen: int, lastSeen: int, attempts: nat)

  datatype Stalled = Stalled(entries: map<string, StalledInfo>, untracked: nat)

  function Recorded(s: Stalled, uuid: string, reason: string, now: int): Stalled {
    if uuid in s.entries then
      var i := s.entries[uuid];
      s.(entries := s.entries[uuid := StalledInfo(reason, i.firstSeen, now, i.attempts + 1)])
    else if |s.entries| >= MAX_STALLED then s.(untracked := s.untracked + 1)
    else s.(entries := s.entries[uuid := StalledInfo(reason, now, now, 1)])
  }

  function Cleared(s: Stalled, uuid: string): Stalled {
    s.(entries := s.entries - {uuid})
  }

  class StalledSet {
    var entries: map<string, StalledInfo>
    var untracked: nat
    // antwatcher_sink_stalled and antwatcher_sink_stalled_messages.
    var stalledGauge: nat
    var messagesGauge: nat

    ghost function View(): Stalled
      reads this
    {
      Stalled(entries, untracked)
    }

    // Both gauges agree with the set, which stays within its cap.
    ghost predicate Valid()
      reads this
    {
      && messagesGauge == |entries| <= MAX_STALLED
      && stalledGauge == (if entries == map[] then 0 else 1)
    }

    constructor ()
      ensures Valid() && View() == Stalled(map[], 0)
    {
      entries, untracked, stalledGauge, messagesGauge := map[], 0, 0, 0;
    }

    method PublishLocked()
      modifies this`stalledGauge, this`messagesGauge
      ensures messagesGauge == |entries|
      ensures stalledGauge == (if entries == map[] then 0 else 1)
    {
      messagesGauge := |entries|;
      stalledGauge := if |entries| > 0 then 1 else 0;
    }

    method Record(uuid: string, reason: string, now: int) returns (attempts: nat, logNow: bool)
      requires Valid()
      modifies this
      ensures Valid() && View() == Recorded(old(View()), uuid, reason, now)
      // A message the full set does not track is counted apart; any other has one more failure to its entry.
      ensures uuid !in entries <==> uuid !in old(entries) && |old(entries)| >= MAX_STALLED
      ensures untracked == old(untracked) + if uuid in entries then 0 else 1
      ensures uuid in entries ==>
                entries[uuid] == StalledInfo(reason,
                  if uuid in old(entries) then old(entries)[uuid].firstSeen else now, now,
                  1 + if uuid in old(entries) then old(entries)[uuid].attempts else 0)
      ensures attempts == (if uuid in entries then entries[uuid].attempts else 1)
      ensures var n := if uuid in entries then attempts else untracked;
              logNow <==> n == 1 || n % LOG_EVERY == 0
    {
      var info := StalledInfo(reason, now, now, 0);
      if uuid in entries {
        info := entries[uuid];
      } else if |entries| >= MAX_STALLED {
        untracked := untracked + 1;
        return 1, untracked == 1 || untracked % LOG_EVERY == 0;
      }
      info := StalledInfo(reason, info.firstSeen, now, info.attempts + 1);
      ghost var grown := entries.Keys + {uuid};
      entries := entries[uuid := info];
      assert entries.Keys == grown;
      PublishLocked();
      return info.attempts, info.attempts == 1 || info.attempts % LOG_EVERY == 0;
    }

    method Clear(uuid: string) returns (existed: bool)
      requires Valid()
      modifies this
      ensures Valid() && View() == Cleared(old(View()), uuid)
      ensures existed <==> uuid in old(entries)
    {
      if uuid !in entries {
        assert entries - {uuid} == entries;
        return false;
      }
      ghost var fewer := entries.Keys - {uuid};
      entries := entries - {uuid};
      assert entries.Keys == fewer;
      PublishLocked();
      return true;
    }
  }

  // ----- the handler -----

  datatype Counts = Counts(ok: nat, error: nat, permanent: nat, skipped: nat)

  function Counted(c: Counts, h: Handling): Counts {
    if Stalls(h) then c.(permanent := c.permanent + 1)
    else if h.verdict.Nil? then c.(ok := c.ok + 1)
    else if h.verdict.skipped then c.(skipped := c.skipped + 1)
    else c.(error := c.error + 1)
  }

  function Handled(s: Stalled, uuid: string, h: Handling, now: int): Stalled {
    if Succeeds(h) then Cleared(s, uuid)
    else if Stalls(h) then Recorded(s, uuid, ReasonOf(h), now)
    else s
  }

  class Handler {
    const stalled: StalledSet
    var lastSuccess: Option<int>
    var counts: Counts

    constructor ()
      ensures fresh(stalled) && stalled.Valid() && stalled.View() == Stalled(map[], 0)
      ensures lastSuccess == None && counts == Counts(0, 0, 0, 0)
    {
      stalled := new StalledSet();
      lastSuccess, counts := None, Counts(0, 0, 0, 0);
    }

    // Handle one message; true acks it, false nacks it. Every other message keeps its entry.
    method Handle(uuid: string, h: Handling, now: int) returns (ack: bool)
      requires stalled.Valid()
      modifies this, stalled
      ensures stalled.Valid() && stalled.View() == Handled(old(stalled.View()), uuid, h, now)
      // Acked exactly on nil and on an error that wraps ErrSkipped.
      ensures ack <==> h == Processed(Nil) || (h.Processed? && h.verdict.Err? && h.verdict.skipped)
      ensures ack <==> Succeeds(h)
      // An ack, and nothing but an ack, ends the message's entry; a permanent failure and an undecodable
      // message alone may add or change it.
      ensures ack ==> uuid !in stalled.entries
      ensures h.Processed? && h.verdict.Err? && !h.verdict.skipped && !h.verdict.permanent ==>
                stalled.View() == old(stalled.View())
      ensures h.Undecodable? || (h.verdict.Err? && !h.verdict.skipped && h.verdict.permanent) ==>
                if uuid in stalled.entries
                then stalled.entries[uuid].lastSeen == now &&
                     stalled.entries[uuid].reason == (if h.Undecodable? then h.reason else h.verdict.text)
                else stalled.untracked == old(stalled.untracked) + 1
      ensures forall u :: u != uuid ==>
                (u in stalled.entries <==> u in old(stalled.entries)) &&
                (u in stalled.entries ==> stalled.entries[u] == old(stalled.entries)[u])
      // One counter goes up by one: that of the outcome.
      ensures counts == Counted(old(counts), h)
      ensures counts.ok == old(counts).ok + (if h == Processed(Nil) then 1 else 0)
      ensures counts.skipped == old(counts).skipped + (if ack && h != Processed(Nil) then 1 else 0)
      ensures counts.error == old(counts).error +
                (if h.Processed? && h.verdict.Err? && !h.verdict.skipped && !h.verdict.permanent then 1 else 0)
      ensures counts.permanent == old(counts).permanent +
                (if h.Undecodable? || (h.verdict.Err? && !h.verdict.skipped && h.verdict.permanent) then 1 else 0)
      ensures lastSuccess == if ack then Some(now) else old(lastSuccess)
    {
      if h.Undecodable? {
        Stall(uuid, h.reason, now);
        return false;
      }
      var v := h.verdict;
      if v.Nil? {
        Succeeded(uuid, now);
        counts := counts.(ok := counts.ok + 1);
        return true;
      } else if v.skipped {
        Succeeded(uuid, now);
        counts := counts.(skipped := counts.skipped + 1);
        return true;
      } else if v.permanent {
        Stall(uuid, v.text, now);
        return false;
      }
      counts := counts.(error := counts.error + 1);
      return false;
    }

    method Succeeded(uuid: string, now: int)
      requires stalled.Valid()
      modifies this`lastSuccess, stalled
      ensures stalled.Valid() && stalled.View() == Cleared(old(stalled.View()), uuid) && lastSuccess == Some(now)
    {
      lastSuccess := Some(now);
      var _ := stalled.Clear(uuid);
    }

    method Stall(uuid: string, reason: string, now: int)
      requires stalled.Valid()
      modifies this`counts, stalled
      ensures stalled.Valid() && stalled.View() == Recorded(old(stalled.View()), uuid, reason, now)
      ensures counts == old(counts).(permanent := old(counts).permanent + 1)
    {
      counts := counts.(permanent := counts.permanent + 1);
      var _, _ := stalled.Record(uuid, reason, now);
    }
  }

  // ----- any sequence of handled messages -----

  datatype Message = Message(uuid: string, handling: Handling, now: int)

  function After(h: seq<Message>): Stalled {
    if h == [] then Stalled(map[], 0)
    else
      var m := h[|h| - 1];
      Handled(After(h[..|h| - 1]), m.uuid, m.handling, m.now)
  }

  predicate Fails(m: Message, uuid: string) {
    m.uuid == uuid && Stalls(m.handling)
  }

  predicate Clears(m: Message, uuid: string) {
    m.uuid == uuid && Succeeds(m.handling)
  }

  function Failures(h: seq<Message>, uuid: string): nat {
    if h == [] then 0 else Failures(h[..|h| - 1], uuid) + if Fails(h[|h| - 1], uuid) then 1 else 0
  }

  // The permanent failures of uuid after its last success.
  function FailuresSinceSuccess(h: seq<Message>, uuid: string): nat {
    if h == [] || Clears(h[|h| - 1], uuid) then 0
    else FailuresSinceSuccess(h[..|h| - 1], uuid) + if Fails(h[|h| - 1], uuid) then 1 else 0
  }

  lemma {:induction false} NeverOverCap(h: seq<Message>)
    ensures |After(h).entries| <= MAX_STALLED
    decreases |h|
  {
    if h != [] {
      NeverOverCap(h[..|h| - 1]);
      var s, m := After(h[..|h| - 1]), h[|h| - 1];
      assert After(h).entries.Keys <= s.entries.Keys + {m.uuid};
      if Succeeds(m.handling) {
        assert After(h).entries.Keys == s.entries.Keys - {m.uuid};
      } else if m.uuid !in s.entries && m.uuid in After(h).entries {
        assert After(h).entries.Keys == s.entries.Keys + {m.uuid};
      } else {
        assert After(h).entries.Keys == s.entries.Keys;
      }
    }
  }

  // What a message failed with for good: it did not decode, or an error that is permanent and not ErrSkipped.
  predicate FailedFor(m: Message, uuid: string, reason: string) {
    && m.uuid == uuid
    && (|| m.handling == Undecodable(reason)
        || m.handling == Processed(Err(false, true, reason)))
  }

  // i is where uuid's entry began: a permanent failure with no success since, all failures since counted.
  ghost predicate TrackedSince(h: seq<Message>, uuid: string, i: nat) {
    && i < |h| && Fails(h[i], uuid)
    && (forall j :: i <= j < |h| ==> !Clears(h[j], uuid))
    && uuid in After(h).entries
    && After(h).entries[uuid].attempts == Failures(h[i..], uuid)
    && After(h).entries[uuid].firstSeen == h[i].now
  }

  // An error that is neither ErrSkipped nor permanent.
  predicate Transient(m: Message) {
    m.handling.Processed? && m.handling.verdict.Err? && !m.handling.verdict.skipped && !m.handling.verdict.permanent
  }

  // What the last message did to the entry of uuid.
  lemma LastMessage(h: seq<Message>, uuid: string)
    requires h != [] && uuid in After(h).entries
    ensures var init, m, entry := h[..|h| - 1], h[|h| - 1], After(h).entries[uuid];
            if Fails(m, uuid) then FailedFor(m, uuid, entry.reason) && entry.lastSeen == m.now
            else uuid in After(init).entries && After(init).entries[uuid] == entry && (m.uuid == uuid ==> Transient(m))
  {
  }

  // A tracked message shows its last permanent failure, and nothing but transient ones came since.
  lemma {:induction false} EntriesShowLastFailure(h: seq<Message>, uuid: string) returns (k: nat)
    requires uuid in After(h).entries
    ensures k < |h| && FailedFor(h[k], uuid, After(h).entries[uuid].reason)
    ensures After(h).entries[uuid].lastSeen == h[k].now
    ensures forall j :: k < j < |h| && h[j].uuid == uuid ==> Transient(h[j])
    decreases |h|
  {
    hide Handled, Recorded, FailedFor, Transient, Fails;
    EmptyIsUntracked(uuid);
    LastMessage(h, uuid);
    if Fails(h[|h| - 1], uuid) {
      k := |h| - 1;
    } else {
      k := EntriesShowLastFailure(h[..|h| - 1], uuid);
    }
  }

  lemma EmptyIsUntracked(uuid: string)
    ensures uuid !in After([]).entries
  {
  }

  // After any sequence of messages, a tracked message's attempts are its permanent failures since it was tracked.
  lemma {:induction false} EntriesAreTracked(h: seq<Message>, uuid: string) returns (i: nat)
    requires uuid in After(h).entries
    ensures TrackedSince(h, uuid, i)
    decreases |h|
  {
    var init, m := h[..|h| - 1], h[|h| - 1];
    if uuid in After(init).entries {
      i := EntriesAreTracked(init, uuid);
      assert h[i..][..|h[i..]| - 1] == init[i..];
    } else {
      i := |h| - 1;
      assert h[i..] == [m] && [m][..0] == [];
      assert Failures(h[i..], uuid) == 1;
    }
  }

  // Only messages with a permanent failure and no later success are tracked, with no more attempts than
  // those failures; and if no failure ever met a full set, exactly those, with exactly those attempts.
  lemma {:induction false} TrackedIffFailing(h: seq<Message>, uuid: string)
    ensures uuid in After(h).entries ==> 1 <= After(h).entries[uuid].attempts <= FailuresSinceSuccess(h, uuid)
    ensures After(h).untracked == 0 ==>
              && (uuid in After(h).entries <==> FailuresSinceSuccess(h, uuid) > 0)
              && (uuid in After(h).entries ==> After(h).entries[uuid].attempts == FailuresSinceSuccess(h, uuid))
    decreases |h|
  {
    if h != [] {
      TrackedIffFailing(h[..|h| - 1], uuid);
    }
  }
}
