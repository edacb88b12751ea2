/**
 * The human-in-the-loop driver (`main` in main.py): stream the first run;
 * while the last chunk carries an interrupt, collect one decision per action
 * request of its first interrupt and resume, carrying the message count into
 * the resumed stream; stop at the first run that ends without an interrupt.
 */
module Session {
  import opened Options
  import opened Review
  import opened Stream

  /** How a session ends. */
  datatype SessionEnd =
    | Finished          // no interrupt, and the last chunk has messages: "FINISHED." is printed
    | Ended             // no interrupt, and no chunk or no messages: the loop ends silently
    | InputClosed       // the console input ended during the review (EOF)
    | StreamsExhausted  // an interrupt is pending but no further resumed stream is given

  /** `result.get("__interrupt__")[0].value` when the result carries an interrupt; only the first one counts. */
  function PendingInterrupt<M, J>(result: Option<Snapshot<M, J>>): Option<InterruptValue<J>> {
    match result
    case None => None
    case Some(chunk) => if chunk.interrupts != [] then Some(chunk.interrupts[0]) else None
  }

  /** The stream of run `k`: the first invocation for 0, the `k`-th resume after that. */
  function Run<M, J>(initial: seq<Snapshot<M, J>>, resumes: seq<seq<Snapshot<M, J>>>, k: nat): seq<Snapshot<M, J>>
    requires k <= |resumes|
  {
    if k == 0 then initial else resumes[k - 1]
  }

  /** The streams one after the other. */
  function Flatten<T>(runs: seq<seq<T>>): seq<T> {
    if runs == [] then [] else Flatten(runs[..|runs| - 1]) + runs[|runs| - 1]
  }

  /** Every chunk seen once the first invocation and `n` resumes have been streamed. */
  function Streamed<M, J>(initial: seq<Snapshot<M, J>>, resumes: seq<seq<Snapshot<M, J>>>, n: nat): seq<Snapshot<M, J>>
    requires n <= |resumes|
  {
    initial + Flatten(resumes[..n])
  }

  lemma HistoriesConcat<M, J>(a: seq<Snapshot<M, J>>, b: seq<Snapshot<M, J>>)
    ensures Histories(a + b) == Histories(a) + Histories(b)
  {
  }

  lemma StreamedNext<M, J>(initial: seq<Snapshot<M, J>>, resumes: seq<seq<Snapshot<M, J>>>, n: nat)
    requires n < |resumes|
    ensures Streamed(initial, resumes, n + 1) == Streamed(initial, resumes, n) + resumes[n]
  {
    assert resumes[..n + 1][..n] == resumes[..n];
  }

  /**
   * After the first invocation and `n` resumes: `result` is the last chunk of
   * run `n`, `shown` every message shown so far, `count` the carried count.
   */
  ghost predicate StreamedSoFar<M, J>(initial: seq<Snapshot<M, J>>, resumes: seq<seq<Snapshot<M, J>>>, n: nat,
                                      result: Option<Snapshot<M, J>>, shown: seq<M>, count: nat)
  {
    && n <= |resumes|
    && result == LastChunk(Run(initial, resumes, n))
    && shown == Emitted(Histories(Streamed(initial, resumes, n)), 0)
    && count == FinalCount(Histories(Streamed(initial, resumes, n)), 0)
  }

  /**
   * Stream resume `n` (`stream_agent(agent, Command(resume=...), config,
   * last_message_count)`), carrying the message count of everything streamed
   * before it: the session's stream grows by exactly what this resume shows.
   */
  method Resume<M, J>(initial: seq<Snapshot<M, J>>, resumes: seq<seq<Snapshot<M, J>>>, n: nat,
                      shown: seq<M>, count: nat)
    returns (result': Option<Snapshot<M, J>>, shown': seq<M>, count': nat)
    requires n < |resumes|
    requires shown == Emitted(Histories(Streamed(initial, resumes, n)), 0)
    requires count == FinalCount(Histories(Streamed(initial, resumes, n)), 0)
    ensures StreamedSoFar(initial, resumes, n + 1, result', shown', count')
  {
    StreamedNext(initial, resumes, n);
    HistoriesConcat(Streamed(initial, resumes, n), resumes[n]);
    EmittedConcat(Histories(Streamed(initial, resumes, n)), Histories(resumes[n]), 0);
    var out;
    result', count', out := StreamAgent(resumes[n], count);
    shown' := shown + out;
  }

  /**
   * Review `k` of a session: run `k` ended on an interrupt, and the decisions
   * are those read for its action requests from `lines[start..stop]`.
   */
  ghost predicate Reviewed<M, J>(run: seq<Snapshot<M, J>>, lines: seq<string>, parse: string -> Option<J>,
                                 start: nat, stop: nat, decisions: seq<Decision<J>>)
  {
    && start <= stop <= |lines|
    && PendingInterrupt(LastChunk(run)).Some?
    && CollectAll(PendingInterrupt(LastChunk(run)).value.actionRequests, lines[start..], parse)
       == Some((decisions, stop - start))
  }

  /**
   * The decisions sent on a resume are one per action request of the first
   * interrupt, in order; an edit names the action it replaces.
   */
  lemma ReviewedDecisions<M, J>(run: seq<Snapshot<M, J>>, lines: seq<string>, parse: string -> Option<J>,
                                start: nat, stop: nat, decisions: seq<Decision<J>>)
    requires Reviewed(run, lines, parse, start, stop, decisions)
    ensures var requests := PendingInterrupt(LastChunk(run)).value.actionRequests;
      && |decisions| == |requests|
      && (forall i :: 0 <= i < |decisions| && decisions[i].Edit? ==> decisions[i].name == requests[i].name)
      && stop - start <= 2 * |requests|
  {
    CollectAllMeaning(PendingInterrupt(LastChunk(run)).value.actionRequests, lines[start..], parse);
  }

  /** Every review of a session so far: review `k` read `lines[starts[k]..starts[k + 1]]` and sent `sent[k]`. */
  ghost predicate AllReviewed<M, J>(initial: seq<Snapshot<M, J>>, resumes: seq<seq<Snapshot<M, J>>>,
                                    lines: seq<string>, parse: string -> Option<J>,
                                    starts: seq<nat>, sent: seq<seq<Decision<J>>>)
  {
    && |sent| <= |resumes| && |starts| == |sent| + 1
    && forall k {:trigger sent[k]} :: 0 <= k < |sent| ==>
         Reviewed(Run(initial, resumes, k), lines, parse, starts[k], starts[k + 1], sent[k])
  }

  /** The reviews so far, extended by one more. */
  lemma ReviewedExtend<M, J>(initial: seq<Snapshot<M, J>>, resumes: seq<seq<Snapshot<M, J>>>,
                             lines: seq<string>, parse: string -> Option<J>,
                             starts: seq<nat>, sent: seq<seq<Decision<J>>>, stop: nat, decisions: seq<Decision<J>>)
    requires |sent| < |resumes|
    requires AllReviewed(initial, resumes, lines, parse, starts, sent)
    requires Reviewed(Run(initial, resumes, |sent|), lines, parse, starts[|sent|], stop, decisions)
    ensures AllReviewed(initial, resumes, lines, parse, starts + [stop], sent + [decisions])
  {
    var starts', sent' := starts + [stop], sent + [decisions];
    forall k | 0 <= k < |sent'|
      ensures Reviewed(Run(initial, resumes, k), lines, parse, starts'[k], starts'[k + 1], sent'[k])
    {
      if k < |sent| {
        assert starts'[k] == starts[k] && starts'[k + 1] == starts[k + 1] && sent'[k] == sent[k];
      }
    }
  }

  /** Review `k` could not be completed: the input ended before every action request had its answer. */
  ghost predicate Unanswered<M, J>(run: seq<Snapshot<M, J>>, lines: seq<string>, parse: string -> Option<J>, start: nat)
  {
    && start <= |lines|
    && PendingInterrupt(LastChunk(run)).Some?
    && CollectAll(PendingInterrupt(LastChunk(run)).value.actionRequests, lines[start..], parse).None?
  }

  /** What reading the answers for the pending interrupt from `lines[pos..]` means for the session. */
  lemma ReviewOutcome<M, J>(initial: seq<Snapshot<M, J>>, resumes: seq<seq<Snapshot<M, J>>>,
                            lines: seq<string>, parse: string -> Option<J>,
                            starts: seq<nat>, sent: seq<seq<Decision<J>>>, pos: nat,
                            collected: Option<(seq<Decision<J>>, nat)>)
    requires AllReviewed(initial, resumes, lines, parse, starts, sent)
    requires starts[|sent|] == pos <= |lines|
    requires PendingInterrupt(LastChunk(Run(initial, resumes, |sent|))).Some?
    requires collected == CollectAll(PendingInterrupt(LastChunk(Run(initial, resumes, |sent|))).value.actionRequests,
                                     lines[pos..], parse)
    ensures collected.None? ==> Unanswered(Run(initial, resumes, |sent|), lines, parse, pos)
    ensures collected.Some? ==> pos + collected.value.1 <= |lines|
    ensures collected.Some? && |sent| < |resumes| ==>
              AllReviewed(initial, resumes, lines, parse, starts + [pos + collected.value.1], sent + [collected.value.0])
  {
    CollectAllMeaning(PendingInterrupt(LastChunk(Run(initial, resumes, |sent|))).value.actionRequests, lines[pos..], parse);
    if collected.Some? && |sent| < |resumes| {
      var (decisions, used) := collected.value;
      assert collected == Some((decisions, used));
      assert Reviewed(Run(initial, resumes, |sent|), lines, parse, pos, pos + used, decisions);
      ReviewedExtend(initial, resumes, lines, parse, starts, sent, pos + collected.value.1, collected.value.0);
    }
  }

  /**
   * The review of the interrupt pending after run `|sent|`: read one decision
   * per action request from `lines[pos..]`; when it completes and a further
   * resume exists, the session's reviews grow by this one.
   */
  method ReviewPending<M, J>(initial: seq<Snapshot<M, J>>, resumes: seq<seq<Snapshot<M, J>>>,
                             lines: seq<string>, parse: string -> Option<J>,
                             ghost starts: seq<nat>, ghost sent: seq<seq<Decision<J>>>,
                             interrupt: InterruptValue<J>, pos: nat)
    returns (collected: Option<(seq<Decision<J>>, nat)>)
    requires AllReviewed(initial, resumes, lines, parse, starts, sent)
    requires starts[|sent|] == pos <= |lines|
    requires PendingInterrupt(LastChunk(Run(initial, resumes, |sent|))) == Some(interrupt)
    ensures collected == CollectAll(interrupt.actionRequests, lines[pos..], parse)
    ensures collected.None? <==> Unanswered(Run(initial, resumes, |sent|), lines, parse, pos)
    ensures collected.Some? ==> pos + collected.value.1 <= |lines|
    ensures collected.Some? && |sent| < |resumes| ==>
              AllReviewed(initial, resumes, lines, parse, starts + [pos + collected.value.1], sent + [collected.value.0])
  {
    var shown;
    collected, shown := CollectDecisions(interrupt, lines[pos..], parse);
    ReviewOutcome(initial, resumes, lines, parse, starts, sent, pos, collected);
  }

  /**
   * One pass of the `while True` loop after run `|sent|` (main.py:92-160),
   * whose last chunk is `result`: without an interrupt the session ends,
   * with "FINISHED." when that chunk has messages; otherwise the first
   * interrupt is reviewed from `lines[pos..]`, and the session ends as
   * `InputClosed` on EOF and as `StreamsExhausted` when no further stream is
   * given, or it resumes with the decisions, carrying the count.
   */
  method Step<M, J>(initial: seq<Snapshot<M, J>>, resumes: seq<seq<Snapshot<M, J>>>,
                    lines: seq<string>, parse: string -> Option<J>,
                    ghost starts: seq<nat>, sent: seq<seq<Decision<J>>>,
                    result: Option<Snapshot<M, J>>, pos: nat, shown: seq<M>, count: nat)
    returns (stop: Option<SessionEnd>, decisions: seq<Decision<J>>, used: nat,
             result': Option<Snapshot<M, J>>, shown': seq<M>, count': nat)
    requires StreamedSoFar(initial, resumes, |sent|, result, shown, count)
    requires |starts| == |sent| + 1 && starts[|sent|] == pos <= |lines|
    requires AllReviewed(initial, resumes, lines, parse, starts, sent)
    ensures var last := LastChunk(Run(initial, resumes, |sent|));
      stop.Some? ==>
        && (PendingInterrupt(last).None? <==> stop.value == Finished || stop.value == Ended)
        && (stop.value == InputClosed <==> Unanswered(Run(initial, resumes, |sent|), lines, parse, pos))
        && (stop.value == StreamsExhausted ==> |sent| == |resumes|)
        && (stop.value == Finished <==> PendingInterrupt(last).None? && last.Some? && last.value.messages.Some?)
    ensures stop.None? ==>
              && |sent| < |resumes| && pos + used <= |lines|
              && AllReviewed(initial, resumes, lines, parse, starts + [pos + used], sent + [decisions])
              && StreamedSoFar(initial, resumes, |sent| + 1, result', shown', count')
  {
    var pending := PendingInterrupt(result);
    if pending.None? {
      stop := if result.Some? && result.value.messages.Some? then Some(Finished) else Some(Ended);
      return stop, [], 0, result, shown, count;
    }
    var collected := ReviewPending(initial, resumes, lines, parse, starts, sent, pending.value, pos);
    if collected.None? {
      return Some(InputClosed), [], 0, result, shown, count;
    }
    if |sent| == |resumes| {
      return Some(StreamsExhausted), [], 0, result, shown, count;
    }
    decisions, used := collected.value.0, collected.value.1;
    result', shown', count' := Resume(initial, resumes, |sent|, shown, count);
    stop := None;
  }

  /**
   * `main` after set-up: `initial` is what the first invocation streams,
   * `resumes[k]` what the `k`-th resume streams, `lines` the console input,
   * `parse` stands for `json.loads`. Returns the messages shown, the decision
   * lists sent on each resume, the final message count and how the session
   * ended; `starts` marks where each review began reading input.
   */
  method RunSession<M, J>(initial: seq<Snapshot<M, J>>, resumes: seq<seq<Snapshot<M, J>>>,
                          lines: seq<string>, parse: string -> Option<J>)
    returns (shown: seq<M>, sent: seq<seq<Decision<J>>>, count: nat, end: SessionEnd, ghost starts: seq<nat>)
    ensures |sent| <= |resumes|
    ensures shown == Emitted(Histories(Streamed(initial, resumes, |sent|)), 0)
    ensures count == FinalCount(Histories(Streamed(initial, resumes, |sent|)), 0)
    ensures |starts| == |sent| + 1 && starts[0] == 0 && starts[|sent|] <= |lines|
    ensures AllReviewed(initial, resumes, lines, parse, starts, sent)
    ensures var pending := PendingInterrupt(LastChunk(Run(initial, resumes, |sent|)));
      && (pending.None? <==> end == Finished || end == Ended)
      && (end == InputClosed ==> Unanswered(Run(initial, resumes, |sent|), lines, parse, starts[|sent|]))
      && (end == StreamsExhausted ==> |sent| == |resumes| && !Unanswered(Run(initial, resumes, |sent|), lines, parse, starts[|sent|]))
    ensures var last := LastChunk(Run(initial, resumes, |sent|));
      end == Finished <==> PendingInterrupt(last).None? && last.Some? && last.value.messages.Some?
  {
    var result;
    result, count, shown := StreamAgent(initial, 0);
    assert resumes[..0] == [] && initial + [] == initial;
    sent := [];
    starts := [0];
    var pos, runs := 0, 0;
    while true
      invariant runs == |sent|
      invariant StreamedSoFar(initial, resumes, runs, result, shown, count)
      invariant |starts| == |sent| + 1 && starts[0] == 0 && starts[|sent|] == pos && pos <= |lines|
      invariant AllReviewed(initial, resumes, lines, parse, starts, sent)
      decreases |resumes| - runs
    {
      var stop, decisions, used, result', shown', count' :=
        Step(initial, resumes, lines, parse, starts, sent, result, pos, shown, count);
      if stop.Some? {
        end := stop.value;
        return;
      }
      result, shown, count := result', shown', count';
      runs := runs + 1;
      pos := pos + used;
      starts := starts + [pos];
      sent := sent + [decisions];
    }
  }
}
