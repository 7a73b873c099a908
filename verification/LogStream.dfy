/** The stream of a worker job's persisted log, polled from a table that other processes append to
    (backend/app/main.py, backend/app/jobs/repository.py). */
module LogStream {
  import opened Wrappers

  datatype Entry = Entry(id: nat, job: string, step: Option<int>, message: string, createdAt: string)

  /** What one query sees: the log table, and the job's status unless the job is gone. */
  datatype Snapshot = Snapshot(logs: seq<Entry>, status: Option<string>)

  datatype Event = Data(entry: Entry) | Ping

  predicate Ended(s: Snapshot) {
    s.status.None? || s.status.value in ["completed", "failed", "cancelled"]
  }

  /** Ids are assigned from 1 up, in the order of the inserts. */
  predicate Ordered(logs: seq<Entry>) {
    && (forall i | 0 <= i < |logs| :: 0 < logs[i].id)
    && forall i, j | 0 <= i < j < |logs| :: logs[i].id < logs[j].id
  }

  /** Rows are only ever appended between one query of the stream and the next; the status may do anything. */
  ghost predicate Growing(seen: seq<Snapshot>) {
    && (forall i | 0 <= i < |seen| :: Ordered(seen[i].logs))
    && forall i, j | 0 <= i <= j < |seen| :: seen[i].logs <= seen[j].logs
  }

  function ListJobLogs(job: string, logs: seq<Entry>, afterId: nat): seq<Entry> {
    if logs == [] then []
    else
      var init, last := ListJobLogs(job, logs[..|logs| - 1], afterId), logs[|logs| - 1];
      if last.job == job && afterId < last.id then init + [last] else init
  }

  /** The job's lines, oldest first. */
  function Lines(job: string, logs: seq<Entry>): seq<Entry> {
    ListJobLogs(job, logs, 0)
  }

  function AsEvents(entries: seq<Entry>): seq<Event> {
    if entries == [] then [] else AsEvents(entries[..|entries| - 1]) + [Data(entries[|entries| - 1])]
  }

  function Entries(events: seq<Event>): seq<Entry> {
    if events == [] then []
    else
      var init, last := Entries(events[..|events| - 1]), events[|events| - 1];
      if last.Data? then init + [last.entry] else init
  }

  lemma {:induction false} ListConcat(job: string, a: seq<Entry>, b: seq<Entry>, afterId: nat)
    ensures ListJobLogs(job, a + b, afterId) == ListJobLogs(job, a, afterId) + ListJobLogs(job, b, afterId)
  {
    if b == [] {
      assert a + b == a;
    } else {
      assert (a + b)[..|a + b| - 1] == a + b[..|b| - 1];
      ListConcat(job, a, b[..|b| - 1], afterId);
    }
  }

  lemma {:induction false} ListedAre(job: string, logs: seq<Entry>, afterId: nat, e: Entry)
    ensures e in ListJobLogs(job, logs, afterId) <==> e in logs && e.job == job && afterId < e.id
  {
    if logs != [] {
      ListedAre(job, logs[..|logs| - 1], afterId, e);
      assert logs == logs[..|logs| - 1] + [logs[|logs| - 1]];
    }
  }

  lemma {:induction false} NothingListed(job: string, logs: seq<Entry>, afterId: nat)
    requires forall e | e in logs :: e.job == job ==> e.id <= afterId
    ensures ListJobLogs(job, logs, afterId) == []
  {
    if logs != [] {
      assert logs[|logs| - 1] in logs;
      NothingListed(job, logs[..|logs| - 1], afterId);
    }
  }

  lemma {:induction false} AllListed(job: string, logs: seq<Entry>, afterId: nat)
    requires forall e | e in logs :: afterId < e.id
    ensures ListJobLogs(job, logs, afterId) == Lines(job, logs)
  {
    if logs != [] {
      assert logs[|logs| - 1] in logs;
      AllListed(job, logs[..|logs| - 1], afterId);
    }
  }

  lemma {:induction false} LinesOrdered(job: string, logs: seq<Entry>)
    requires Ordered(logs)
    ensures Ordered(Lines(job, logs))
  {
    if logs != [] {
      var init, last := logs[..|logs| - 1], logs[|logs| - 1];
      LinesOrdered(job, init);
      var lines := Lines(job, init);
      forall i | 0 <= i < |lines| ensures lines[i].id < last.id {
        ListedAre(job, init, 0, lines[i]);
      }
    }
  }

  /** The cursor: the id of the last line sent, 0 before the first. */
  function Cursor(lines: seq<Entry>): nat {
    if lines == [] then 0 else lines[|lines| - 1].id
  }

  /** Listing after the cursor gives exactly the lines appended since. */
  lemma CursorIsExact(job: string, earlier: seq<Entry>, later: seq<Entry>)
    requires Ordered(later) && earlier <= later
    ensures Lines(job, earlier) <= Lines(job, later)
    ensures ListJobLogs(job, later, Cursor(Lines(job, earlier))) == Lines(job, later)[|Lines(job, earlier)|..]
  {
    var cursor, added := Cursor(Lines(job, earlier)), later[|earlier|..];
    var lines := Lines(job, earlier);
    assert later == earlier + added;
    ListConcat(job, earlier, added, 0);
    ListConcat(job, earlier, added, cursor);
    LinesOrdered(job, earlier);
    if lines != [] {
      ListedAre(job, earlier, 0, lines[|lines| - 1]);
    }
    forall e | e in earlier && e.job == job ensures e.id <= cursor {
      ListedAre(job, earlier, 0, e);
    }
    NothingListed(job, earlier, cursor);
    AllListed(job, added, cursor);
  }

  // ----- What is sent, poll by poll. Query 0 lists the log, query 1 reads the status, and so on in turn.

  /** The lines the q-th query finds new, by comparing it with the log query before. */
  function NewLines(job: string, seen: seq<Snapshot>, q: nat): seq<Entry>
    requires q < |seen| && q % 2 == 0
  {
    var lines := Lines(job, seen[q].logs);
    var sent := if q == 0 then 0 else |Lines(job, seen[q - 2].logs)|;
    if sent <= |lines| then lines[sent..] else []
  }

  /** The events after the first q queries. */
  function Sent(job: string, seen: seq<Snapshot>, q: nat): seq<Event>
    requires q <= |seen|
  {
    if q == 0 then []
    else if q % 2 == 1 then Sent(job, seen, q - 1) + AsEvents(NewLines(job, seen, q - 1))
    else if !Ended(seen[q - 1]) && NewLines(job, seen, q - 2) == [] then Sent(job, seen, q - 1) + [Ping]
    else Sent(job, seen, q - 1)
  }

  /** No status query before q saw the end. */
  ghost predicate Live(seen: seq<Snapshot>, q: nat)
    requires q <= |seen|
  {
    forall k | 0 <= k < q && k % 2 == 1 :: !Ended(seen[k])
  }

  /** Every poll lists after the last id sent; once the end is seen, one more listing drains the log. The stream
      can be cut off after any query: seen holds as many snapshots as it lives to ask for. */
  method PersistedLogStream(job: string, seen: seq<Snapshot>) returns (sent: seq<Event>, queries: nat, done: bool)
    requires Growing(seen)
    ensures queries <= |seen| && sent == Sent(job, seen, queries)
    ensures done ==>
              && 3 <= queries && queries % 2 == 1 && Live(seen, queries - 2)
              && (seen[queries - 2].status.Some? ==>
                    seen[queries - 2].status.value in ["completed", "failed", "cancelled"])
    ensures !done ==> queries == |seen| && Live(seen, if queries == 0 then 0 else queries - 1)
  {
    hide Growing, ListJobLogs, Lines, NewLines, AsEvents, Cursor, Ended, Sent;
    StartsSilent(job, seen);
    sent, queries, done := [], 0, false;
    var lastId := 0;
    while true
      invariant queries <= |seen| && queries % 2 == 0 && !done
      invariant sent == Sent(job, seen, queries) && Live(seen, queries)
      invariant lastId == if queries == 0 then 0 else Cursor(Lines(job, seen[queries - 2].logs))
      decreases |seen| - queries
    {
      if queries == |seen| {
        return;
      }
      var logs := ListJobLogs(job, seen[queries].logs, lastId);
      ListingIsNew(job, seen, queries);
      SentNext(job, seen, queries);
      sent, lastId := SendAll(sent, lastId, logs);
      queries := queries + 1;
      if queries == |seen| {
        return;
      }
      SentNext(job, seen, queries);
      queries := queries + 1;
      var current := seen[queries - 1].status;
      EndedMeans(seen[queries - 1]);
      if current.None? || current.value in ["completed", "failed", "cancelled"] {
        if queries == |seen| {
          return;
        }
        ListingIsNew(job, seen, queries);
        SentNext(job, seen, queries);
        sent, lastId := SendAll(sent, lastId, ListJobLogs(job, seen[queries].logs, lastId));
        queries, done := queries + 1, true;
        return;
      }
      if logs == [] {
        sent := sent + [Ping];
      }
    }
  }

  lemma EndedMeans(s: Snapshot)
    ensures Ended(s) <==> s.status.None? || s.status.value in ["completed", "failed", "cancelled"]
  {
  }

  lemma StartsSilent(job: string, seen: seq<Snapshot>)
    ensures Sent(job, seen, 0) == []
  {
  }

  lemma SentNext(job: string, seen: seq<Snapshot>, q: nat)
    requires q < |seen|
    ensures Sent(job, seen, q + 1) == Sent(job, seen, q) +
              if q % 2 == 0 then AsEvents(NewLines(job, seen, q))
              else if !Ended(seen[q]) && NewLines(job, seen, q - 1) == [] then [Ping]
              else []
  {
    hide NewLines, Ended, AsEvents;
  }

  method SendAll(sent: seq<Event>, lastId: nat, entries: seq<Entry>) returns (more: seq<Event>, last: nat)
    ensures more == sent + AsEvents(entries)
    ensures last == if entries == [] then lastId else Cursor(entries)
  {
    more, last := sent, lastId;
    var i := 0;
    while i < |entries|
      invariant 0 <= i <= |entries| && more == sent + AsEvents(entries[..i])
      invariant last == if i == 0 then lastId else entries[i - 1].id
    {
      last := entries[i].id;
      more := more + [Data(entries[i])];
      assert entries[..i + 1][..i] == entries[..i];
      i := i + 1;
    }
    assert entries[..i] == entries;
  }

  lemma ListingIsNew(job: string, seen: seq<Snapshot>, q: nat)
    requires Growing(seen) && q < |seen| && q % 2 == 0
    ensures var cursor := if q == 0 then 0 else Cursor(Lines(job, seen[q - 2].logs));
            var added := NewLines(job, seen, q);
            && ListJobLogs(job, seen[q].logs, cursor) == added
            && Cursor(Lines(job, seen[q].logs)) == if added == [] then cursor else Cursor(added)
  {
    CursorIsExact(job, if q == 0 then [] else seen[q - 2].logs, seen[q].logs);
  }

  // ----- What the stream promises.

  lemma AsEventsSnoc(entries: seq<Entry>, last: Entry)
    ensures AsEvents(entries + [last]) == AsEvents(entries) + [Data(last)]
  {
    assert (entries + [last])[..|entries|] == entries;
  }

  lemma EntriesSnoc(events: seq<Event>, last: Entry)
    ensures Entries(events + [Data(last)]) == Entries(events) + [last]
  {
    assert (events + [Data(last)])[..|events|] == events;
  }

  lemma {:induction false} EntriesConcat(events: seq<Event>, entries: seq<Entry>)
    ensures Entries(events + AsEvents(entries)) == Entries(events) + entries
  {
    if entries == [] {
      assert events + AsEvents(entries) == events;
    } else {
      var init, last := entries[..|entries| - 1], entries[|entries| - 1];
      EntriesConcat(events, init);
      assert entries == init + [last];
      AsEventsSnoc(init, last);
      EntriesSnoc(events + AsEvents(init), last);
      hide AsEvents, Entries;
      assert events + AsEvents(entries) == events + AsEvents(init) + [Data(last)];
    }
  }

  /** After any number of queries the lines sent are the job's whole log as the last listing saw it: none missing,
      none twice, in order. */
  lemma {:induction false} SentIsTheLog(job: string, seen: seq<Snapshot>, q: nat)
    requires Growing(seen) && q <= |seen|
    ensures Entries(Sent(job, seen, q)) ==
            if q == 0 then [] else Lines(job, seen[if q % 2 == 1 then q - 1 else q - 2].logs)
  {
    hide Lines, Growing, NewLines, Sent, Entries;
    if q == 0 {
      NothingSent(job, seen);
    } else if q % 2 == 1 {
      SentIsTheLog(job, seen, q - 1);
      ListingSends(job, seen, q);
    } else {
      SentIsTheLog(job, seen, q - 1);
      StatusSendsNothing(job, seen, q);
    }
  }

  lemma NothingSent(job: string, seen: seq<Snapshot>)
    ensures Entries(Sent(job, seen, 0)) == []
  {
  }

  lemma ListingSends(job: string, seen: seq<Snapshot>, q: nat)
    requires Growing(seen) && q <= |seen| && q % 2 == 1
    requires Entries(Sent(job, seen, q - 1)) == if q == 1 then [] else Lines(job, seen[q - 3].logs)
    ensures Entries(Sent(job, seen, q)) == Lines(job, seen[q - 1].logs)
  {
    hide Lines, Growing, AsEvents, Entries, Ended;
    EntriesConcat(Sent(job, seen, q - 1), NewLines(job, seen, q - 1));
    if q > 1 {
      LinesGrow(job, seen, q - 3, q - 1);
    }
  }

  lemma StatusSendsNothing(job: string, seen: seq<Snapshot>, q: nat)
    requires 0 < q <= |seen| && q % 2 == 0
    ensures Entries(Sent(job, seen, q)) == Entries(Sent(job, seen, q - 1))
  {
    hide Lines, NewLines, AsEvents, Ended;
    assert (Sent(job, seen, q - 1) + [Ping])[..|Sent(job, seen, q - 1)|] == Sent(job, seen, q - 1);
  }

  lemma LinesGrow(job: string, seen: seq<Snapshot>, i: nat, j: nat)
    requires Growing(seen) && i <= j < |seen|
    ensures Lines(job, seen[i].logs) <= Lines(job, seen[j].logs)
  {
    CursorIsExact(job, seen[i].logs, seen[j].logs);
  }

  /** Ids sent are strictly increasing, and what was sent is a prefix of the log at any later instant. */
  lemma SentIsPrefix(job: string, seen: seq<Snapshot>, q: nat, later: nat)
    requires Growing(seen) && q <= |seen| && q <= later < |seen|
    ensures Ordered(Entries(Sent(job, seen, q)))
    ensures Entries(Sent(job, seen, q)) <= Lines(job, seen[later].logs)
  {
    SentIsTheLog(job, seen, q);
    if q > 0 {
      var last := if q % 2 == 1 then q - 1 else q - 2;
      LinesOrdered(job, seen[last].logs);
      LinesGrow(job, seen, last, later);
    }
  }

  /** A finished stream has sent every line that was there when the final status was read; when the job logs nothing
      after that, it has sent the whole log of any later instant. */
  lemma FinishedStreamIsComplete(job: string, seen: seq<Snapshot>, q: nat, before: nat, later: nat)
    requires Growing(seen) && 3 <= q <= |seen| && q % 2 == 1 && Ended(seen[q - 2])
    requires before <= q - 2 && q - 1 <= later < |seen|
    ensures Lines(job, seen[before].logs) <= Entries(Sent(job, seen, q))
    ensures Lines(job, seen[later].logs) == Lines(job, seen[q - 2].logs) ==>
              Entries(Sent(job, seen, q)) == Lines(job, seen[later].logs)
  {
    hide Lines, Growing, Sent, Entries, Ended;
    SentIsTheLog(job, seen, q);
    LinesGrow(job, seen, before, q - 1);
    LinesGrow(job, seen, q - 2, q - 1);
    LinesGrow(job, seen, q - 1, later);
  }
}
