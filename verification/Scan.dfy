/**
 The bounded scan of one literal, in both of its versions: a stream of matching rows in
 rank order is cut to the first row of each session, under a row budget and a depth.
 */
module Scan {
  import opened Texts

  const POSTING_BUDGET := 256
  const MAX_DEPTH := 100

  datatype Posting = Posting(sessionId: Text, seqNo: nat, fingerprint: Text)

  datatype Ranked = Ranked(rank: nat, posting: Posting)

  datatype Reason = Exhausted | SourceDepth | PostingBudget

  datatype Source = Source(ordinal: nat, truncated: bool, reason: Reason, scanned: nat, ranked: seq<Ranked>)

  function Take<T>(s: seq<T>, n: nat): (r: seq<T>)
    ensures r <= s && |r| == if n < |s| then n else |s|
  {
    if n < |s| then s[..n] else s
  }

  function Sessions(rows: seq<Posting>): set<Text> {
    set row <- rows :: row.sessionId
  }

  /** The rows whose session has not occurred before them. */
  function Firsts(rows: seq<Posting>): (r: seq<Posting>)
    ensures |r| <= |rows|
    decreases |rows|
  {
    if rows == [] then []
    else
      var front, last := rows[..|rows| - 1], rows[|rows| - 1];
      if last.sessionId in Sessions(front) then Firsts(front) else Firsts(front) + [last]
  }

  function WithRanks(rows: seq<Posting>): (r: seq<Ranked>)
    ensures |r| == |rows| && forall i :: 0 <= i < |r| ==> r[i] == Ranked(i + 1, rows[i])
  {
    seq(|rows|, i requires 0 <= i < |rows| => Ranked(i + 1, rows[i]))
  }

  // ---------- First rows of sessions ----------

  lemma SessionsStep(rows: seq<Posting>, n: nat)
    requires n < |rows|
    ensures Sessions(rows[..n + 1]) == Sessions(rows[..n]) + {rows[n].sessionId}
  {
    assert rows[..n + 1] == rows[..n] + [rows[n]];
  }

  lemma FirstsStep(rows: seq<Posting>, n: nat)
    requires n < |rows|
    ensures Firsts(rows[..n + 1]) == if rows[n].sessionId in Sessions(rows[..n]) then Firsts(rows[..n]) else Firsts(rows[..n]) + [rows[n]]
  {
    assert rows[..n + 1][..n] == rows[..n];
  }

  lemma {:induction false} FirstsGrow(rows: seq<Posting>, n: nat)
    requires n <= |rows|
    ensures Firsts(rows[..n]) <= Firsts(rows)
    decreases |rows|
  {
    if n < |rows| {
      assert rows[..|rows| - 1][..n] == rows[..n];
      FirstsGrow(rows[..|rows| - 1], n);
    } else {
      assert rows[..n] == rows;
    }
  }

  /** at is where a session occurs for the first time. */
  ghost predicate FirstAt(rows: seq<Posting>, at: nat) {
    at < |rows| && forall k :: 0 <= k < at ==> rows[k].sessionId != rows[at].sessionId
  }

  lemma {:induction false} FirstsKeepSessions(rows: seq<Posting>)
    ensures Sessions(Firsts(rows)) == Sessions(rows)
    decreases |rows|
  {
    if rows != [] {
      var front := rows[..|rows| - 1];
      FirstsKeepSessions(front);
      assert rows == front + [rows[|rows| - 1]];
      SessionsAppend(front, rows[|rows| - 1]);
      SessionsAppend(Firsts(front), rows[|rows| - 1]);
    }
  }

  lemma SessionsAppend(rows: seq<Posting>, row: Posting)
    ensures Sessions(rows + [row]) == Sessions(rows) + {row.sessionId}
  {
    SessionsStep(rows + [row], |rows|);
    assert (rows + [row])[..|rows|] == rows && (rows + [row])[..|rows| + 1] == rows + [row];
  }

  lemma {:induction false} FirstsAreFirst(rows: seq<Posting>)
    ensures forall row <- Firsts(rows) :: exists at: nat :: FirstAt(rows, at) && rows[at] == row
    decreases |rows|
  {
    if rows != [] {
      var front, n := rows[..|rows| - 1], |rows| - 1;
      FirstsAreFirst(front);
      forall row <- Firsts(rows)
        ensures exists at: nat :: FirstAt(rows, at) && rows[at] == row
      {
        if row in Firsts(front) {
          var at: nat :| FirstAt(front, at) && front[at] == row;
          assert FirstAt(rows, at) && rows[at] == row;
        } else {
          assert forall k :: 0 <= k < n ==> rows[k] == front[k] && front[k].sessionId in Sessions(front);
          assert FirstAt(rows, n) && rows[n] == row;
        }
      }
    }
  }

  lemma {:induction false} FirstsAreDistinct(rows: seq<Posting>)
    ensures forall i, j :: 0 <= i < j < |Firsts(rows)| ==> Firsts(rows)[i].sessionId != Firsts(rows)[j].sessionId
    decreases |rows|
  {
    if rows != [] {
      var front := rows[..|rows| - 1];
      FirstsAreDistinct(front);
      FirstsKeepSessions(front);
      assert forall i :: 0 <= i < |Firsts(front)| ==> Firsts(front)[i].sessionId in Sessions(Firsts(front));
    }
  }

  // ---------- The two scans ----------

  /** The loop of search_one_literal; the statement itself ends the stream after the budget. */
  method SearchOneLiteral(matching: seq<Posting>, ordinal: nat, depth: nat) returns (r: Source)
    requires 1 <= depth <= MAX_DEPTH
    ensures r.ordinal == ordinal && r.truncated == (r.reason != Exhausted)
    ensures r.scanned <= |matching| && r.ranked == WithRanks(Firsts(matching[..r.scanned]))
    ensures r.ranked == WithRanks(Take(Firsts(Take(matching, POSTING_BUDGET)), depth))
    ensures r.reason == SourceDepth <==> |Firsts(Take(matching, POSTING_BUDGET))| >= depth
    ensures r.reason == Exhausted <==> |matching| < POSTING_BUDGET && |Firsts(matching)| < depth
  {
    hide Firsts, Sessions, WithRanks;
    var stream := Take(matching, POSTING_BUDGET);
    var seen: set<Text> := {};
    NothingScanned(stream);
    var ranked: seq<Ranked> := [];
    var scanned := 0;
    var reason: Reason;
    while true
      invariant scanned <= |stream| && scanned < POSTING_BUDGET
      invariant seen == Sessions(stream[..scanned])
      invariant ranked == WithRanks(Firsts(stream[..scanned])) && |ranked| < depth
      decreases |stream| - scanned
    {
      if scanned == |stream| {
        reason := Exhausted;
        break;
      }
      var row := stream[scanned];
      ScanStep(stream, scanned);
      scanned := scanned + 1;
      if row.sessionId !in seen {
        seen := seen + {row.sessionId};
        ranked := ranked + [Ranked(|ranked| + 1, row)];
        if |ranked| == depth {
          reason := SourceDepth;
          break;
        }
      }
      if scanned == POSTING_BUDGET {
        reason := PostingBudget;
        break;
      }
    }
    ScanEnds(matching, scanned, depth);
    return Source(ordinal, reason != Exhausted, reason, scanned, ranked);
  }

  /** The loop of search_literal, which knows no depth but its own and reports no reason. */
  method SearchLiteral(matching: seq<Posting>) returns (hits: seq<Ranked>, scanned: nat)
    ensures hits == WithRanks(Take(Firsts(Take(matching, POSTING_BUDGET)), MAX_DEPTH))
    ensures scanned <= |matching| && hits == WithRanks(Firsts(matching[..scanned]))
  {
    hide Firsts, Sessions, WithRanks;
    var stream := Take(matching, POSTING_BUDGET);
    var seen: set<Text> := {};
    NothingScanned(stream);
    hits, scanned := [], 0;
    while scanned < |stream|
      invariant scanned <= |stream|
      invariant seen == Sessions(stream[..scanned])
      invariant hits == WithRanks(Firsts(stream[..scanned])) && |hits| < MAX_DEPTH
    {
      var row := stream[scanned];
      ScanStep(stream, scanned);
      scanned := scanned + 1;
      if row.sessionId in seen {
        continue;
      }
      seen := seen + {row.sessionId};
      hits := hits + [Ranked(|hits| + 1, row)];
      if |hits| == MAX_DEPTH {
        break;
      }
    }
    ScanEnds(matching, scanned, MAX_DEPTH);
  }

  lemma NothingScanned(stream: seq<Posting>)
    ensures Sessions(stream[..0]) == {} && Firsts(stream[..0]) == [] && WithRanks([]) == []
  {
  }

  lemma ScanStep(stream: seq<Posting>, n: nat)
    requires n < |stream|
    ensures Sessions(stream[..n + 1]) == Sessions(stream[..n]) + {stream[n].sessionId}
    ensures var ranked := WithRanks(Firsts(stream[..n]));
            if stream[n].sessionId in Sessions(stream[..n])
            then Firsts(stream[..n + 1]) == Firsts(stream[..n]) && WithRanks(Firsts(stream[..n + 1])) == ranked
            else WithRanks(Firsts(stream[..n + 1])) == ranked + [Ranked(|ranked| + 1, stream[n])]
  {
    SessionsStep(stream, n);
    FirstsStep(stream, n);
  }

  /** Where a scan stops, the rows read determine what the whole stream would have given. */
  lemma ScanEnds(matching: seq<Posting>, scanned: nat, depth: nat)
    requires var stream := Take(matching, POSTING_BUDGET);
             scanned <= |stream| && |Firsts(stream[..scanned])| <= depth
             && (scanned == |stream| || |Firsts(stream[..scanned])| == depth)
    ensures var stream := Take(matching, POSTING_BUDGET);
            && stream[..scanned] == matching[..scanned]
            && Firsts(stream[..scanned]) == Take(Firsts(stream), depth)
            && (scanned == |stream| ==> Firsts(stream[..scanned]) == Firsts(stream))
            && |Firsts(stream)| <= |Firsts(matching)|
  {
    var stream := Take(matching, POSTING_BUDGET);
    FirstsGrow(stream, scanned);
    assert stream == matching[..|stream|];
    FirstsGrow(matching, |stream|);
    if scanned == |stream| {
      assert stream[..scanned] == stream;
    }
  }

  // ---------- What a scan promises ----------

  /** What a scan of this depth ranks. */
  function ScanRows(matching: seq<Posting>, depth: nat): seq<Posting> {
    Take(Firsts(Take(matching, POSTING_BUDGET)), depth)
  }

  /** A deeper scan only adds at the end. */
  lemma DeeperScanExtends(matching: seq<Posting>, depth: nat, deeper: nat)
    requires depth <= deeper
    ensures WithRanks(ScanRows(matching, depth)) <= WithRanks(ScanRows(matching, deeper))
  {
  }

  /** A scan that ended because the rows did has every matching session, at its first row. */
  lemma UntruncatedIsComplete(matching: seq<Posting>, depth: nat)
    requires |matching| < POSTING_BUDGET && |Firsts(matching)| < depth
    ensures Sessions(ScanRows(matching, depth)) == Sessions(matching)
    ensures forall row <- ScanRows(matching, depth) :: exists at: nat :: FirstAt(matching, at) && matching[at] == row
  {
    FirstsKeepSessions(matching);
    FirstsAreFirst(matching);
  }

  /** Ranks count from one, and no session is ranked twice. */
  lemma ScanIsRanked(matching: seq<Posting>, depth: nat)
    ensures var rows := ScanRows(matching, depth);
            forall i, j :: 0 <= i < j < |rows| ==> rows[i].sessionId != rows[j].sessionId
  {
    FirstsAreDistinct(Take(matching, POSTING_BUDGET));
  }
}
