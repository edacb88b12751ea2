/**
 * The streaming reporter (`stream_agent` in main.py). The agent yields the
 * whole state after every step; the reporter shows only the messages at
 * positions it has not shown yet, tracked by a running count that the caller
 * carries from one stream (the first run, then each resume) to the next.
 */
module Stream {
  import opened Options
  import opened Review

  /**
   * One state chunk of `agent.stream(..., stream_mode="values")`:
   * its "messages" entry (None when absent) and its "__interrupt__" entry
   * (empty when absent).
   */
  datatype Snapshot<M, J> = Snapshot(messages: Option<seq<M>>, interrupts: seq<InterruptValue<J>>)

  /** `chunk.get("messages", [])`. */
  function MessagesOf<M, J>(s: Snapshot<M, J>): seq<M> {
    match s.messages
    case Some(ms) => ms
    case None => []
  }

  /** The message lists of a stream of snapshots. */
  function Histories<M, J>(snapshots: seq<Snapshot<M, J>>): seq<seq<M>> {
    seq(|snapshots|, i requires 0 <= i < |snapshots| => MessagesOf(snapshots[i]))
  }

  /** The messages shown for one snapshot, given how many were shown before. */
  function Fresh<M>(history: seq<M>, count: nat): seq<M> {
    if |history| > count then history[count..] else []
  }

  /** The count after one snapshot. */
  function Advance<M>(history: seq<M>, count: nat): nat {
    if |history| > count then |history| else count
  }

  /** Everything shown for a stream of message lists, starting from `count`. */
  function Emitted<M>(histories: seq<seq<M>>, count: nat): seq<M> {
    if histories == [] then []
    else Fresh(histories[0], count) + Emitted(histories[1..], Advance(histories[0], count))
  }

  /** The count after a stream. */
  function FinalCount<M>(histories: seq<seq<M>>, count: nat): nat {
    if histories == [] then count
    else FinalCount(histories[1..], Advance(histories[0], count))
  }

  /**
   * The count after a stream never falls below the starting count, is at
   * least the length of every snapshot, and is either the starting count or
   * the length of some snapshot.
   */
  lemma {:induction false} FinalCountBounds<M>(histories: seq<seq<M>>, count: nat)
    ensures FinalCount(histories, count) >= count
    ensures forall i :: 0 <= i < |histories| ==> |histories[i]| <= FinalCount(histories, count)
    ensures FinalCount(histories, count) == count
            || exists i :: 0 <= i < |histories| && FinalCount(histories, count) == |histories[i]|
    decreases |histories|
  {
    if histories != [] {
      var next := Advance(histories[0], count);
      var r := FinalCount(histories[1..], next);
      FinalCountBounds(histories[1..], next);
      forall i | 1 <= i < |histories| ensures |histories[i]| <= r {
        assert histories[i] == histories[1..][i - 1];
      }
      if r != count && r != next {
        var j :| 0 <= j < |histories[1..]| && r == |histories[1..][j]|;
        assert r == |histories[j + 1]|;
      }
    }
  }

  /** The number of messages shown is exactly how far the count moved: no message twice. */
  lemma {:induction false} EmittedLength<M>(histories: seq<seq<M>>, count: nat)
    ensures |Emitted(histories, count)| == FinalCount(histories, count) - count
    decreases |histories|
  {
    if histories != [] {
      EmittedLength(histories[1..], Advance(histories[0], count));
    }
  }

  /** Streaming two streams one after the other, carrying the count, is streaming their concatenation. */
  lemma {:induction false} EmittedConcat<M>(a: seq<seq<M>>, b: seq<seq<M>>, count: nat)
    ensures Emitted(a + b, count) == Emitted(a, count) + Emitted(b, FinalCount(a, count))
    ensures FinalCount(a + b, count) == FinalCount(b, FinalCount(a, count))
    decreases |a|
  {
    if a == [] {
      assert a + b == b;
    } else {
      assert (a + b)[0] == a[0] && (a + b)[1..] == a[1..] + b;
      EmittedConcat(a[1..], b, Advance(a[0], count));
    }
  }

  ghost predicate IsPrefix<M>(a: seq<M>, b: seq<M>) {
    |a| <= |b| && b[..|a|] == a
  }

  /**
   * Messages are only ever appended: each history is a prefix of every later
   * one that has messages. A chunk without "messages" reads as an empty
   * history and may come anywhere.
   */
  ghost predicate AppendOnly<M>(histories: seq<seq<M>>) {
    forall i, j :: 0 <= i <= j < |histories| && histories[j] != [] ==> IsPrefix(histories[i], histories[j])
  }

  /** The messages of the last snapshot that has any; empty when none has. */
  function LastNonEmpty<M>(histories: seq<seq<M>>): seq<M> {
    if histories == [] then []
    else
      var later := LastNonEmpty(histories[1..]);
      if later != [] then later else histories[0]
  }

  /** `LastNonEmpty` is empty exactly when every history is, and otherwise a history after which all are empty. */
  lemma {:induction false} LastNonEmptyMeaning<M>(histories: seq<seq<M>>)
    ensures LastNonEmpty(histories) == [] <==> forall i :: 0 <= i < |histories| ==> histories[i] == []
    ensures LastNonEmpty(histories) != [] ==>
              exists i :: 0 <= i < |histories| && histories[i] == LastNonEmpty(histories)
                          && forall j :: i < j < |histories| ==> histories[j] == []
    decreases |histories|
  {
    if histories != [] {
      var rest := histories[1..];
      LastNonEmptyMeaning(rest);
      if LastNonEmpty(rest) != [] {
        var i :| 0 <= i < |rest| && rest[i] == LastNonEmpty(rest) && forall j :: i < j < |rest| ==> rest[j] == [];
        assert histories[i + 1] == rest[i];
        forall j | i + 1 < j < |histories| ensures histories[j] == [] {
          assert histories[j] == rest[j - 1];
        }
      } else {
        forall j | 0 < j < |histories| ensures histories[j] == [] {
          assert histories[j] == rest[j - 1];
        }
      }
    }
  }

  /**
   * Over a stream whose messages are only appended, the reporter shows every
   * message from the starting count on exactly once, in order: what the last
   * snapshot with messages holds beyond the count.
   */
  lemma {:induction false} EmittedAppendOnly<M>(histories: seq<seq<M>>, count: nat)
    requires AppendOnly(histories)
    ensures Emitted(histories, count) == Fresh(LastNonEmpty(histories), count)
    decreases |histories|
  {
    if histories != [] {
      var h := histories[0];
      var rest := histories[1..];
      assert AppendOnly(rest) by {
        forall i, j | 0 <= i <= j < |rest| && rest[j] != [] ensures IsPrefix(rest[i], rest[j]) {
          assert rest[i] == histories[i + 1] && rest[j] == histories[j + 1];
        }
      }
      EmittedAppendOnly(rest, Advance(h, count));
      var later := LastNonEmpty(rest);
      if later != [] {
        LastNonEmptyMeaning(rest);
        var j :| 0 <= j < |rest| && rest[j] == later && forall k :: j < k < |rest| ==> rest[k] == [];
        assert histories[j + 1] == later;
        assert IsPrefix(h, later);
        if |h| > count && |later| > |h| {
          assert h[count..] + later[|h|..] == later[count..];
        }
      }
    }
  }

  /** The index range [lo, hi) of the messages shown for snapshot `at`. */
  datatype Span = Span(at: nat, lo: nat, hi: nat)

  /** The ranges shown for a stream, one per snapshot that had new messages. */
  function Spans<M>(histories: seq<seq<M>>, count: nat): seq<Span>
    decreases |histories|
  {
    if histories == [] then []
    else
      var init := histories[..|histories| - 1];
      var last := histories[|histories| - 1];
      var before := FinalCount(init, count);
      var r := Spans(init, count);
      if |last| > before then r + [Span(|init|, before, |last|)] else r
  }

  /** Each shown range belongs to a snapshot of the stream, is non-empty, and ends at that snapshot's length. */
  lemma {:induction false} SpansInRange<M>(histories: seq<seq<M>>, count: nat)
    ensures forall k :: 0 <= k < |Spans(histories, count)| ==> InRange(histories, Spans(histories, count)[k])
    decreases |histories|
  {
    if histories != [] {
      var init := histories[..|histories| - 1];
      var r := Spans(init, count);
      SpansInRange(init, count);
      assert forall k :: 0 <= k < |r| ==> InRange(init, r[k]);
      forall k | 0 <= k < |r| ensures InRange(histories, r[k]) {
        assert InRange(init, r[k]);
        assert histories[r[k].at] == init[r[k].at];
      }
    }
  }

  /** `s` names a snapshot of the stream, is non-empty, and ends at that snapshot's length. */
  ghost predicate InRange<M>(histories: seq<seq<M>>, s: Span) {
    s.at < |histories| && s.lo < s.hi == |histories[s.at]|
  }

  /** The first shown range starts at the count and the last ends at the final count; none means the count stays. */
  lemma {:induction false} SpansEnds<M>(histories: seq<seq<M>>, count: nat)
    ensures var r := Spans(histories, count);
      r != [] ==> r[0].lo == count && r[|r| - 1].hi == FinalCount(histories, count)
    ensures Spans(histories, count) == [] ==> FinalCount(histories, count) == count
    decreases |histories|
  {
    if histories != [] {
      var init := histories[..|histories| - 1];
      SpansEnds(init, count);
      FinalCountLast(histories, count);
    }
  }

  /** The shown ranges come in snapshot order, each starting where the one before ended. */
  lemma {:induction false} SpansChained<M>(histories: seq<seq<M>>, count: nat)
    ensures var r := Spans(histories, count);
      forall k, l :: 0 <= k && l == k + 1 < |r| ==> r[k].at < r[l].at && r[k].hi == r[l].lo
    decreases |histories|
  {
    if histories != [] {
      var init := histories[..|histories| - 1];
      var last := histories[|histories| - 1];
      var r := Spans(init, count);
      SpansChained(init, count);
      if |last| > FinalCount(init, count) {
        SpansEnds(init, count);
        SpansInRange(init, count);
        var r' := r + [Span(|init|, FinalCount(init, count), |last|)];
        forall k, l | 0 <= k && l == k + 1 < |r'| ensures r'[k].at < r'[l].at && r'[k].hi == r'[l].lo {
          assert r'[k] == r[k];
          if l < |r| {
            assert r'[l] == r[l];
          }
        }
      }
    }
  }

  /** Shown ranges never overlap: every index is shown at most once. */
  lemma {:induction false} SpansDisjoint<M>(histories: seq<seq<M>>, count: nat, k: nat, l: nat)
    requires k < l < |Spans(histories, count)|
    ensures Spans(histories, count)[k].hi <= Spans(histories, count)[l].lo
    ensures Spans(histories, count)[k].at < Spans(histories, count)[l].at
    decreases l - k
  {
    SpansChained(histories, count);
    SpansInRange(histories, count);
    if k + 1 < l {
      SpansDisjoint(histories, count, k + 1, l);
    }
  }

  /** The messages of snapshot `s.at` in the range `s`. */
  function Piece<M>(histories: seq<seq<M>>, s: Span): seq<M> {
    if s.at < |histories| && s.lo <= s.hi <= |histories[s.at]| then histories[s.at][s.lo..s.hi] else []
  }

  /** The messages in the ranges `spans`, one range after the other. */
  function Covered<M>(histories: seq<seq<M>>, spans: seq<Span>): seq<M> {
    if spans == [] then [] else Covered(histories, spans[..|spans| - 1]) + Piece(histories, spans[|spans| - 1])
  }

  /** Later snapshots do not change the messages in ranges of earlier ones. */
  lemma {:induction false} CoveredExtend<M>(histories: seq<seq<M>>, more: seq<seq<M>>, spans: seq<Span>)
    requires forall k :: 0 <= k < |spans| ==> spans[k].at < |histories|
    ensures Covered(histories + more, spans) == Covered(histories, spans)
    decreases |spans|
  {
    if spans != [] {
      CoveredExtend(histories, more, spans[..|spans| - 1]);
      var s := spans[|spans| - 1];
      assert (histories + more)[s.at] == histories[s.at];
    }
  }

  /** What the reporter shows is exactly the messages in the shown ranges, range by range. */
  lemma {:induction false} SpansCoverEmitted<M>(histories: seq<seq<M>>, count: nat)
    ensures Covered(histories, Spans(histories, count)) == Emitted(histories, count)
    decreases |histories|
  {
    if histories != [] {
      var init := histories[..|histories| - 1];
      var last := histories[|histories| - 1];
      SpansCoverEmitted(init, count);
      SpansInRange(init, count);
      assert histories == init + [last];
      CoveredExtend(init, [last], Spans(init, count));
      EmittedLast(histories, count);
      CoveredLast(histories, count);
    }
  }

  /** The ranges of a stream cover those of all but its last snapshot, then what the last one shows. */
  lemma CoveredLast<M>(histories: seq<seq<M>>, count: nat)
    requires histories != []
    ensures var init := histories[..|histories| - 1];
      Covered(histories, Spans(histories, count))
      == Covered(histories, Spans(init, count)) + Fresh(histories[|histories| - 1], FinalCount(init, count))
  {
    var init := histories[..|histories| - 1];
    var last := histories[|histories| - 1];
    var before := FinalCount(init, count);
    var r := Spans(init, count);
    if |last| > before {
      var s := Span(|init|, before, |last|);
      assert Spans(histories, count) == r + [s];
      CoveredSnoc(histories, r, s);
      assert histories[s.at] == last;
      assert last[before..|last|] == last[before..];
      assert Piece(histories, s) == Fresh(last, before);
    }
  }

  /** Adding a range at the end adds its messages at the end. */
  lemma CoveredSnoc<M>(histories: seq<seq<M>>, spans: seq<Span>, s: Span)
    ensures Covered(histories, spans + [s]) == Covered(histories, spans) + Piece(histories, s)
  {
    assert (spans + [s])[..|spans|] == spans;
  }

  /** The count after the last snapshot, from the count after the ones before it. */
  lemma FinalCountLast<M>(histories: seq<seq<M>>, count: nat)
    requires histories != []
    ensures FinalCount(histories, count)
            == Advance(histories[|histories| - 1], FinalCount(histories[..|histories| - 1], count))
  {
    StreamStep(histories, |histories| - 1, count);
    assert histories[..|histories|] == histories;
  }

  /** What is shown for the last snapshot, after what is shown for the ones before it. */
  lemma EmittedLast<M>(histories: seq<seq<M>>, count: nat)
    requires histories != []
    ensures Emitted(histories, count)
            == Emitted(histories[..|histories| - 1], count)
               + Fresh(histories[|histories| - 1], FinalCount(histories[..|histories| - 1], count))
  {
    StreamStep(histories, |histories| - 1, count);
    assert histories[..|histories|] == histories;
  }

  /** Streaming one more snapshot after a prefix of the stream. */
  lemma StreamStep<M>(histories: seq<seq<M>>, i: nat, count: nat)
    requires i < |histories|
    ensures var before := FinalCount(histories[..i], count);
      && Emitted(histories[..i + 1], count) == Emitted(histories[..i], count) + Fresh(histories[i], before)
      && FinalCount(histories[..i + 1], count) == Advance(histories[i], before)
  {
    assert histories[..i + 1] == histories[..i] + [histories[i]];
    EmittedConcat(histories[..i], [histories[i]], count);
    assert [histories[i]][1..] == [];
  }

  /**
   * `stream_agent(agent, inputs, config, last_message_count)` over the chunks
   * the agent yields: returns the last chunk (None for an empty stream), the
   * final count, and the messages shown, in order.
   */
  /** The last chunk of a stream, as `stream_agent` returns it; None for an empty stream. */
  function LastChunk<M, J>(snapshots: seq<Snapshot<M, J>>): Option<Snapshot<M, J>> {
    if snapshots == [] then None else Some(snapshots[|snapshots| - 1])
  }

  method StreamAgent<M, J>(snapshots: seq<Snapshot<M, J>>, lastMessageCount: nat)
    returns (finalChunk: Option<Snapshot<M, J>>, count: nat, shown: seq<M>)
    ensures finalChunk == LastChunk(snapshots)
    ensures count == FinalCount(Histories(snapshots), lastMessageCount)
    ensures shown == Emitted(Histories(snapshots), lastMessageCount)
  {
    ghost var hs := Histories(snapshots);
    finalChunk := None;
    count := lastMessageCount;
    shown := [];
    for i := 0 to |snapshots|
      invariant finalChunk == if i == 0 then None else Some(snapshots[i - 1])
      invariant count == FinalCount(hs[..i], lastMessageCount)
      invariant shown == Emitted(hs[..i], lastMessageCount)
    {
      finalChunk := Some(snapshots[i]);
      var messages := MessagesOf(snapshots[i]);
      assert hs[i] == messages;
      StreamStep(hs, i, lastMessageCount);
      if |messages| > count {
        var newMessages := messages[count..];
        shown := shown + newMessages;
        count := |messages|;
      }
    }
    assert hs[..|snapshots|] == hs;
  }
}
