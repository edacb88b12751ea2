/**
 * The human review of interrupted tool calls (main.py, inside `main`): one
 * decision per action request, in order, read from the console. Anything
 * that is not a clear "approve" or a well-formed "edit" becomes a rejection.
 * The allowed decisions of a review config are shown, never enforced.
 */
module Review {
  import opened Options
  import opened Text

  /** A tool call the agent wants to make: its name and its JSON arguments. */
  datatype ActionRequest<J> = ActionRequest(name: string, args: J)

  /** A review config; `allowedDecisions` is None when the key is absent. */
  datatype ReviewConfig = ReviewConfig(actionName: string, allowedDecisions: Option<seq<string>>)

  /** The value of an interrupt: the requests to review and their configs. */
  datatype InterruptValue<J> = InterruptValue(actionRequests: seq<ActionRequest<J>>, reviewConfigs: seq<ReviewConfig>)

  /**
   * The decision dictionaries sent back on resume: `{"type": "approve"}`,
   * `{"type": "reject"}`, `{"type": "edit", "edited_action": {"name": .., "args": ..}}`.
   */
  datatype Decision<J> = Approve | Reject | Edit(name: string, args: J)

  /** What is shown for one action before the prompt. */
  datatype Prompt<J> = Prompt(name: string, args: J, allowed: seq<string>)

  const DefaultAllowed: seq<string> := ["approve", "reject", "edit"]

  /** `{cfg["action_name"]: cfg for cfg in review_configs}`. */
  function ConfigMap(configs: seq<ReviewConfig>): (m: map<string, ReviewConfig>)
    ensures forall name :: name in m ==> m[name].actionName == name
    ensures forall i :: 0 <= i < |configs| ==> configs[i].actionName in m
    decreases |configs|
  {
    if configs == [] then map[]
    else
      var last := configs[|configs| - 1];
      ConfigMap(configs[..|configs| - 1])[last.actionName := last]
  }

  /** An action name is configured exactly when some config names it. */
  lemma {:induction false} ConfigMapKeys(configs: seq<ReviewConfig>, name: string)
    ensures name in ConfigMap(configs) <==> exists i :: 0 <= i < |configs| && configs[i].actionName == name
    decreases |configs|
  {
    if configs != [] {
      var init := configs[..|configs| - 1];
      ConfigMapKeys(init, name);
      if name in ConfigMap(init) {
        var i :| 0 <= i < |init| && init[i].actionName == name;
        assert configs[i].actionName == name;
      }
    }
  }

  /** When several configs name the same action, the last one wins. */
  lemma {:induction false} LastConfigWins(configs: seq<ReviewConfig>, i: nat)
    requires i < |configs|
    requires forall j :: i < j < |configs| ==> configs[j].actionName != configs[i].actionName
    ensures ConfigMap(configs)[configs[i].actionName] == configs[i]
    decreases |configs|
  {
    if i < |configs| - 1 {
      var init := configs[..|configs| - 1];
      LastConfigWins(init, i);
    }
  }

  /** The allowed decisions displayed for `name`, with the default for a missing config or key. */
  function AllowedFor(configMap: map<string, ReviewConfig>, name: string): seq<string> {
    if name in configMap then
      match configMap[name].allowedDecisions
      case Some(a) => a
      case None => DefaultAllowed
    else DefaultAllowed
  }

  /** An action that no config names is shown the default list. */
  lemma UnconfiguredShowsDefault(configs: seq<ReviewConfig>, name: string)
    requires forall i :: 0 <= i < |configs| ==> configs[i].actionName != name
    ensures AllowedFor(ConfigMap(configs), name) == DefaultAllowed
  {
    ConfigMapKeys(configs, name);
  }

  /** `console.input(...).strip().lower()`. */
  function Normalize(line: string): string {
    Lower(Strip(line))
  }

  /**
   * The decision for an "edit" answer, given the follow-up line: an empty line
   * cancels, a line `parse` rejects is refused, and any parsed value, whatever
   * its JSON kind, becomes the new arguments under the action's own name.
   */
  function EditDecision<J>(name: string, followUp: string, parse: string -> Option<J>): Decision<J> {
    if followUp == "" then Reject
    else match parse(followUp)
      case Some(v) => Edit(name, v)
      case None => Reject
  }

  /**
   * The decision for one action from the remaining input lines, and how many
   * lines it used; None when the input ends first (EOF).
   */
  function DecideOne<J>(request: ActionRequest<J>, lines: seq<string>, parse: string -> Option<J>)
    : Option<(Decision<J>, nat)>
  {
    if |lines| == 0 then None
    else
      var answer := Normalize(lines[0]);
      if answer == "approve" then Some((Approve, 1))
      else if answer == "reject" then Some((Reject, 1))
      else if answer == "edit" then
        if |lines| < 2 then None else Some((EditDecision(request.name, lines[1], parse), 2))
      else Some((Reject, 1))
  }

  /**
   * The meaning of one answer: the input ends early only at EOF, "edit" uses
   * a second line; "approve" (after strip and lower-case) and nothing else
   * approves; an edit happens exactly for a non-empty follow-up line that
   * parses, and carries the action's own name; everything else rejects.
   */
  lemma DecideOneMeaning<J>(request: ActionRequest<J>, lines: seq<string>, parse: string -> Option<J>)
    ensures var r := DecideOne(request, lines, parse);
      r.None? <==> |lines| == 0 || (Normalize(lines[0]) == "edit" && |lines| == 1)
    ensures var r := DecideOne(request, lines, parse);
      r.Some? ==> r.value.1 == (if Normalize(lines[0]) == "edit" then 2 else 1)
    ensures var r := DecideOne(request, lines, parse);
      r.Some? ==> (r.value.0 == Approve <==> Normalize(lines[0]) == "approve")
    ensures var r := DecideOne(request, lines, parse);
      r.Some? ==> (r.value.0.Edit? <==> Normalize(lines[0]) == "edit" && lines[1] != "" && parse(lines[1]).Some?)
    ensures var r := DecideOne(request, lines, parse);
      r.Some? && r.value.0.Edit? ==> r.value.0 == Edit(request.name, parse(lines[1]).value)
    ensures var r := DecideOne(request, lines, parse);
      r.Some? ==> (r.value.0 == Reject <==>
                     Normalize(lines[0]) != "approve"
                     && !(Normalize(lines[0]) == "edit" && lines[1] != "" && parse(lines[1]).Some?))
  {
  }

  /** `r` with decisions `ds` and `n` more lines in front. */
  function Prepend<J>(ds: seq<Decision<J>>, n: nat, r: Option<(seq<Decision<J>>, nat)>): Option<(seq<Decision<J>>, nat)> {
    match r
    case None => None
    case Some((rest, m)) => Some((ds + rest, n + m))
  }

  /**
   * The decisions for all requests, in order, and the number of lines used;
   * None when the input ends before every request has one.
   */
  function CollectAll<J>(requests: seq<ActionRequest<J>>, lines: seq<string>, parse: string -> Option<J>)
    : Option<(seq<Decision<J>>, nat)>
    decreases |requests|
  {
    if requests == [] then Some(([], 0))
    else
      match DecideOne(requests[0], lines, parse)
      case None => None
      case Some((d, k)) => Prepend([d], k, CollectAll(requests[1..], lines[k..], parse))
  }

  /**
   * A completed review holds one decision per request, in order, each edit
   * naming its own request, and reads at least one and at most two lines per
   * request; it always completes when two lines per request are available.
   */
  lemma {:induction false} CollectAllMeaning<J>(requests: seq<ActionRequest<J>>, lines: seq<string>, parse: string -> Option<J>)
    ensures var r := CollectAll(requests, lines, parse);
      r.Some? ==> |r.value.0| == |requests|
    ensures var r := CollectAll(requests, lines, parse);
      r.Some? ==> |requests| <= r.value.1 <= |lines| && r.value.1 <= 2 * |requests|
    ensures var r := CollectAll(requests, lines, parse);
      r.Some? ==> forall i :: 0 <= i < |requests| && r.value.0[i].Edit? ==> r.value.0[i].name == requests[i].name
    ensures |lines| >= 2 * |requests| ==> CollectAll(requests, lines, parse).Some?
    decreases |requests|
  {
    if requests != [] {
      DecideOneMeaning(requests[0], lines, parse);
      var step := DecideOne(requests[0], lines, parse);
      if step.Some? {
        var (d, k) := step.value;
        CollectAllMeaning(requests[1..], lines[k..], parse);
        var tail := CollectAll(requests[1..], lines[k..], parse);
        if tail.Some? {
          var ds := [d] + tail.value.0;
          forall i | 0 <= i < |requests| && ds[i].Edit? ensures ds[i].name == requests[i].name {
            if i > 0 {
              assert ds[i] == tail.value.0[i - 1] && requests[i] == requests[1..][i - 1];
            }
          }
        }
      }
    }
  }

  /** The answer read at line `at` decides `d` for `request` and uses the lines up to `next`. */
  ghost predicate AnswerAt<J>(request: ActionRequest<J>, lines: seq<string>, parse: string -> Option<J>,
                              at: nat, next: nat, d: Decision<J>)
  {
    at <= next <= |lines| && DecideOne(request, lines[at..], parse) == Some((d, next - at))
  }

  /**
   * `offsets[i]` is the line where the answer for request `i` starts: the
   * first at line 0, each one right after the lines the one before used, and
   * `decisions[i]` is what that answer decides for request `i`.
   */
  ghost predicate AnsweredAt<J>(requests: seq<ActionRequest<J>>, lines: seq<string>, parse: string -> Option<J>,
                                offsets: seq<nat>, decisions: seq<Decision<J>>)
  {
    && |offsets| == |requests| + 1 && |decisions| == |requests|
    && offsets[0] == 0 && offsets[|requests|] <= |lines|
    && forall i {:trigger decisions[i]} :: 0 <= i < |requests| ==>
         AnswerAt(requests[i], lines, parse, offsets[i], offsets[i + 1], decisions[i])
  }

  /** The offsets of `offsets`, moved `k` lines on, after a first answer at line 0. */
  function Shifted(offsets: seq<nat>, k: nat): seq<nat> {
    [0] + seq(|offsets|, j requires 0 <= j < |offsets| => offsets[j] + k)
  }

  /** An answer read after the first `k` lines is the answer read `k` lines further on. */
  lemma AnswerShift<J>(request: ActionRequest<J>, lines: seq<string>, parse: string -> Option<J>,
                       k: nat, at: nat, next: nat, d: Decision<J>)
    requires k <= |lines| && AnswerAt(request, lines[k..], parse, at, next, d)
    ensures AnswerAt(request, lines, parse, k + at, k + next, d)
  {
    assert lines[k..][at..] == lines[k + at..];
  }

  /** An answer of `k` lines for `request`, followed by the answers for `rest`. */
  lemma AnsweredCons<J>(request: ActionRequest<J>, rest: seq<ActionRequest<J>>, lines: seq<string>,
                        parse: string -> Option<J>, d: Decision<J>, k: nat,
                        offsets: seq<nat>, decisions: seq<Decision<J>>)
    requires k <= |lines| && AnswerAt(request, lines, parse, 0, k, d)
    requires AnsweredAt(rest, lines[k..], parse, offsets, decisions)
    ensures AnsweredAt([request] + rest, lines, parse, Shifted(offsets, k), [d] + decisions)
  {
    var rs, o, ds := [request] + rest, Shifted(offsets, k), [d] + decisions;
    assert o[|rs|] == offsets[|rest|] + k;
    forall i {:trigger ds[i]} | 0 <= i < |rs|
      ensures AnswerAt(rs[i], lines, parse, o[i], o[i + 1], ds[i])
    {
      if i > 0 {
        assert rs[i] == rest[i - 1] && ds[i] == decisions[i - 1];
        assert o[i] == k + offsets[i - 1] && o[i + 1] == k + offsets[i];
        AnswerShift(rest[i - 1], lines, parse, k, offsets[i - 1], offsets[i], decisions[i - 1]);
      }
    }
  }

  /** One answer uses at least one line and no more lines than there are. */
  lemma DecideOneUses<J>(request: ActionRequest<J>, lines: seq<string>, parse: string -> Option<J>)
    ensures var r := DecideOne(request, lines, parse);
      r.Some? ==> 1 <= r.value.1 <= |lines|
  {
  }

  /** Decision `i` is what the answer for request `i` decides, read where the answer before it ended. */
  lemma {:induction false} CollectAllAnswers<J>(requests: seq<ActionRequest<J>>, lines: seq<string>, parse: string -> Option<J>)
    ensures var r := CollectAll(requests, lines, parse);
      r.Some? ==> exists offsets: seq<nat> :: AnsweredAt(requests, lines, parse, offsets, r.value.0) && offsets[|requests|] == r.value.1
    decreases |requests|
  {
    if requests == [] {
      var o: seq<nat> := [0];
      assert AnsweredAt(requests, lines, parse, o, []);
    } else {
      var rest := requests[1..];
      var step := DecideOne(requests[0], lines, parse);
      DecideOneUses(requests[0], lines, parse);
      if step.Some? {
        var d, k := step.value.0, step.value.1;
        CollectAllAnswers(rest, lines[k..], parse);
        var tail := CollectAll(rest, lines[k..], parse);
        if tail.Some? {
          var t: seq<nat> :| AnsweredAt(rest, lines[k..], parse, t, tail.value.0) && t[|rest|] == tail.value.1;
          assert AnswerAt(requests[0], lines, parse, 0, k, d) by { assert lines[0..] == lines; }
          AnsweredCons(requests[0], rest, lines, parse, d, k, t, tail.value.0);
          assert requests == [requests[0]] + rest;
        }
      }
    }
  }

  /** The input ends before the answer for `request` at line `at` is complete. */
  ghost predicate NoAnswerAt<J>(request: ActionRequest<J>, lines: seq<string>, parse: string -> Option<J>, at: nat) {
    at <= |lines| && DecideOne(request, lines[at..], parse).None?
  }

  /** The input ending inside an answer read after the first `k` lines, seen from the start. */
  lemma NoAnswerShift<J>(request: ActionRequest<J>, lines: seq<string>, parse: string -> Option<J>, k: nat, at: nat)
    requires k <= |lines| && NoAnswerAt(request, lines[k..], parse, at)
    ensures NoAnswerAt(request, lines, parse, k + at)
  {
    assert lines[k..][at..] == lines[k + at..];
  }

  /** A review that fails has read complete answers up to some request `j`, and the input ends inside its answer. */
  lemma {:induction false} CollectAllStops<J>(requests: seq<ActionRequest<J>>, lines: seq<string>, parse: string -> Option<J>)
    ensures CollectAll(requests, lines, parse).None? ==>
              exists j: nat, offsets: seq<nat>, ds: seq<Decision<J>> ::
                j < |requests| && AnsweredAt(requests[..j], lines, parse, offsets, ds)
                && NoAnswerAt(requests[j], lines, parse, offsets[j])
    decreases |requests|
  {
    if requests != [] {
      var rest := requests[1..];
      var step := DecideOne(requests[0], lines, parse);
      if step.None? {
        var o: seq<nat> := [0];
        assert requests[..0] == [] && lines[0..] == lines;
        assert AnsweredAt(requests[..0], lines, parse, o, []);
        assert NoAnswerAt(requests[0], lines, parse, o[0]);
      } else {
        DecideOneUses(requests[0], lines, parse);
        var d, k := step.value.0, step.value.1;
        CollectAllStops(rest, lines[k..], parse);
        assert CollectAll(requests, lines, parse) == Prepend([d], k, CollectAll(rest, lines[k..], parse));
        if CollectAll(rest, lines[k..], parse).None? {
          var j: nat, t: seq<nat>, ds: seq<Decision<J>> :|
            j < |rest| && AnsweredAt(rest[..j], lines[k..], parse, t, ds) && NoAnswerAt(rest[j], lines[k..], parse, t[j]);
          assert AnswerAt(requests[0], lines, parse, 0, k, d) by { assert lines[0..] == lines; }
          AnsweredCons(requests[0], rest[..j], lines, parse, d, k, t, ds);
          assert requests[..j + 1] == [requests[0]] + rest[..j] && requests[j + 1] == rest[j];
          var o := Shifted(t, k);
          assert o[j + 1] == k + t[j];
          NoAnswerShift(rest[j], lines, parse, k, t[j]);
          assert AnsweredAt(requests[..j + 1], lines, parse, o, [d] + ds) && NoAnswerAt(requests[j + 1], lines, parse, o[j + 1]);
        }
      }
    }
  }

  /** Answers that are neither "approve" nor "edit" reject every action, one line each. */
  lemma {:induction false} UnknownAnswersRejectAll<J>(requests: seq<ActionRequest<J>>, lines: seq<string>, parse: string -> Option<J>)
    requires |lines| >= |requests|
    requires forall k :: 0 <= k < |requests| ==> Normalize(lines[k]) != "approve" && Normalize(lines[k]) != "edit"
    ensures CollectAll(requests, lines, parse) == Some((seq(|requests|, _ => Decision<J>.Reject), |requests|))
    decreases |requests|
  {
    if requests == [] {
      assert seq(0, _ => Decision<J>.Reject) == [];
    } else {
      DecideOneMeaning(requests[0], lines, parse);
      assert DecideOne(requests[0], lines, parse) == Some((Reject, 1));
      forall k | 0 <= k < |requests| - 1
        ensures Normalize(lines[1..][k]) != "approve" && Normalize(lines[1..][k]) != "edit"
      {
        assert lines[1..][k] == lines[k + 1];
      }
      UnknownAnswersRejectAll(requests[1..], lines[1..], parse);
      var rest := seq(|requests| - 1, _ => Decision<J>.Reject);
      assert CollectAll(requests, lines, parse) == Prepend([Reject], 1, Some((rest, |requests| - 1)));
      assert [Decision<J>.Reject] + rest == seq(|requests|, _ => Decision<J>.Reject);
    }
  }

  lemma PrependTwice<J>(a: seq<Decision<J>>, n: nat, b: seq<Decision<J>>, m: nat, r: Option<(seq<Decision<J>>, nat)>)
    ensures Prepend(a, n, Prepend(b, m, r)) == Prepend(a + b, n + m, r)
  {
    if r.Some? {
      assert a + (b + r.value.0) == (a + b) + r.value.0;
    }
  }

  lemma PrependNothing<J>(r: Option<(seq<Decision<J>>, nat)>)
    ensures Prepend([], 0, r) == r
  {
    if r.Some? {
      assert [] + r.value.0 == r.value.0;
    }
  }

  /** One step of the collection: request `i` is decided from the lines at `start`. */
  lemma CollectStep<J>(requests: seq<ActionRequest<J>>, i: nat, lines: seq<string>, start: nat,
                       step: Option<(Decision<J>, nat)>, parse: string -> Option<J>)
    requires i < |requests| && start <= |lines|
    requires step == DecideOne(requests[i], lines[start..], parse)
    ensures step.None? ==> CollectAll(requests[i..], lines[start..], parse) == None
    ensures step.Some? ==> start + step.value.1 <= |lines|
    ensures step.Some? ==>
              CollectAll(requests[i..], lines[start..], parse) == Prepend([step.value.0], step.value.1, CollectAll(requests[i + 1..], lines[start + step.value.1..], parse))
  {
    assert requests[i..][0] == requests[i] && requests[i..][1..] == requests[i + 1..];
    DecideOneMeaning(requests[i], lines[start..], parse);
    if step.Some? {
      assert lines[start..][step.value.1..] == lines[start + step.value.1..];
    }
  }

  /** Before the first request, nothing is decided and no line is read. */
  lemma CollectStart<J>(requests: seq<ActionRequest<J>>, lines: seq<string>, parse: string -> Option<J>)
    ensures CollectAll(requests, lines, parse) == Prepend([], 0, CollectAll(requests[0..], lines[0..], parse))
  {
    assert requests[0..] == requests && lines[0..] == lines;
    PrependNothing(CollectAll(requests, lines, parse));
  }

  /** After the last request, the decisions read so far are the result. */
  lemma CollectDone<J>(requests: seq<ActionRequest<J>>, lines: seq<string>, pos: nat,
                       decisions: seq<Decision<J>>, parse: string -> Option<J>)
    requires pos <= |lines|
    ensures Prepend(decisions, pos, CollectAll(requests[|requests|..], lines[pos..], parse)) == Some((decisions, pos))
  {
    var none := requests[|requests|..];
    assert none == [];
    assert CollectAll(none, lines[pos..], parse) == Some(([], 0));
    assert decisions + [] == decisions;
  }

  /**
   * The loop step of the collection: with `decisions` read from
   * `lines[..start]` for the requests before `i`, deciding request `i` either
   * ends the whole collection (EOF) or extends the decisions by one.
   */
  lemma CollectAdvance<J>(requests: seq<ActionRequest<J>>, i: nat, lines: seq<string>, start: nat,
                          decisions: seq<Decision<J>>, step: Option<(Decision<J>, nat)>, parse: string -> Option<J>)
    requires i < |requests| && start <= |lines|
    requires step == DecideOne(requests[i], lines[start..], parse)
    requires CollectAll(requests, lines, parse)
             == Prepend(decisions, start, CollectAll(requests[i..], lines[start..], parse))
    ensures step.None? ==> CollectAll(requests, lines, parse) == None
    ensures step.Some? ==> start + step.value.1 <= |lines|
    ensures step.Some? ==>
              CollectAll(requests, lines, parse)
              == Prepend(decisions + [step.value.0], start + step.value.1,
                         CollectAll(requests[i + 1..], lines[start + step.value.1..], parse))
  {
    CollectStep(requests, i, lines, start, step, parse);
    if step.Some? {
      PrependTwice(decisions, start, [step.value.0], step.value.1,
                   CollectAll(requests[i + 1..], lines[start + step.value.1..], parse));
    }
  }

  /** Deciding the requests `a + b` is deciding `a`, then `b` from the lines `a` left. */
  lemma {:induction false} CollectAllAppend<J>(a: seq<ActionRequest<J>>, b: seq<ActionRequest<J>>, lines: seq<string>,
                                               parse: string -> Option<J>, ds: seq<Decision<J>>, n: nat)
    requires n <= |lines| && CollectAll(a, lines, parse) == Some((ds, n))
    ensures CollectAll(a + b, lines, parse) == Prepend(ds, n, CollectAll(b, lines[n..], parse))
    decreases |a|
  {
    if a == [] {
      assert a + b == b && ds == [] && lines[0..] == lines;
      PrependNothing(CollectAll(b, lines, parse));
    } else {
      var step := DecideOne(a[0], lines, parse);
      CollectCons(a, lines, parse);
      assert (a + b)[0] == a[0] && (a + b)[1..] == a[1..] + b;
      CollectCons(a + b, lines, parse);
      var d, k := step.value.0, step.value.1;
      CollectAllAppend(a[1..], b, lines[k..], parse, ds[1..], n - k);
      assert lines[k..][n - k..] == lines[n..];
      PrependTwice([d], k, ds[1..], n - k, CollectAll(b, lines[n..], parse));
      assert [d] + ds[1..] == ds;
    }
  }

  /** Deciding a non-empty run of requests is deciding the first, then the rest from the lines it left. */
  lemma CollectCons<J>(requests: seq<ActionRequest<J>>, lines: seq<string>, parse: string -> Option<J>)
    requires requests != []
    ensures var step := DecideOne(requests[0], lines, parse);
      step.None? ==> CollectAll(requests, lines, parse).None?
    ensures var step := DecideOne(requests[0], lines, parse);
      step.Some? ==> && step.value.1 <= |lines|
                     && CollectAll(requests, lines, parse)
                        == Prepend([step.value.0], step.value.1, CollectAll(requests[1..], lines[step.value.1..], parse))
  {
    DecideOneUses(requests[0], lines, parse);
  }

  /** Deciding a single request is deciding its answer. */
  lemma CollectOne<J>(request: ActionRequest<J>, lines: seq<string>, parse: string -> Option<J>)
    ensures var step := DecideOne(request, lines, parse);
      CollectAll([request], lines, parse) == if step.None? then None else Some(([step.value.0], step.value.1))
  {
    var step := DecideOne(request, lines, parse);
    assert [request][0] == request && [request][1..] == [];
    if step.Some? {
      DecideOneUses(request, lines, parse);
      assert CollectAll([request][1..], lines[step.value.1..], parse) == Some(([], 0));
      assert [step.value.0] + [] == [step.value.0];
    }
  }

  /** Deciding one more request after `a` is deciding its answer from the lines `a` left. */
  lemma CollectSnoc<J>(a: seq<ActionRequest<J>>, request: ActionRequest<J>, lines: seq<string>, parse: string -> Option<J>,
                       ds: seq<Decision<J>>, pos: nat)
    requires pos <= |lines| && CollectAll(a, lines, parse) == Some((ds, pos))
    ensures var step := DecideOne(request, lines[pos..], parse);
      CollectAll(a + [request], lines, parse)
      == if step.None? then None else Some((ds + [step.value.0], pos + step.value.1))
  {
    CollectAllAppend(a, [request], lines, parse, ds, pos);
    CollectOne(request, lines[pos..], parse);
  }

  /** The first `i + 1` elements are the first `i`, then element `i`. */
  lemma PrefixSnoc<T>(s: seq<T>, i: nat)
    requires i < |s|
    ensures s[..i + 1] == s[..i] + [s[i]]
  {
  }

  /** What is shown for `a` before its prompt. */
  function Show<J>(configMap: map<string, ReviewConfig>, a: ActionRequest<J>): Prompt<J> {
    Prompt(a.name, a.args, AllowedFor(configMap, a.name))
  }

  /** What is shown for each of `requests`, in order. */
  function Prompts<J>(configMap: map<string, ReviewConfig>, requests: seq<ActionRequest<J>>): (r: seq<Prompt<J>>)
    ensures |r| == |requests|
  {
    if requests == [] then [] else Prompts(configMap, requests[..|requests| - 1]) + [Show(configMap, requests[|requests| - 1])]
  }

  /** Every action request is shown, in order, with its name, its arguments and its allowed decisions. */
  lemma {:induction false} PromptsShowEach<J>(configMap: map<string, ReviewConfig>, requests: seq<ActionRequest<J>>)
    ensures forall i :: 0 <= i < |requests| ==> Prompts(configMap, requests)[i] == Show(configMap, requests[i])
    decreases |requests|
  {
    if requests != [] {
      var init := requests[..|requests| - 1];
      PromptsShowEach(configMap, init);
      forall i | 0 <= i < |init| ensures Prompts(configMap, requests)[i] == Show(configMap, requests[i]) {
        assert requests[i] == init[i];
      }
    }
  }

  /** Showing one more request extends what was shown by its prompt. */
  lemma PromptsStep<J>(configMap: map<string, ReviewConfig>, requests: seq<ActionRequest<J>>, i: nat)
    requires i < |requests|
    ensures Prompts(configMap, requests[..i + 1]) == Prompts(configMap, requests[..i]) + [Show(configMap, requests[i])]
  {
    assert requests[..i + 1][..i] == requests[..i];
  }

  /**
   * One round of the review: show request `i`, then read its decision from
   * `lines[pos..]`. With `decisions` read for the requests before it, the
   * round either ends the whole review (EOF) or extends them by one.
   */
  method ReviewOne<J>(configMap: map<string, ReviewConfig>, requests: seq<ActionRequest<J>>, i: nat,
                      lines: seq<string>, pos: nat, parse: string -> Option<J>, ghost decisions: seq<Decision<J>>)
    returns (prompt: Prompt<J>, read: Option<(Decision<J>, nat)>)
    requires i < |requests| && pos <= |lines|
    requires CollectAll(requests, lines, parse)
             == Prepend(decisions, pos, CollectAll(requests[i..], lines[pos..], parse))
    ensures prompt == Show(configMap, requests[i])
    ensures read == DecideOne(requests[i], lines[pos..], parse)
    ensures read.None? ==> CollectAll(requests, lines, parse) == None
    ensures read.Some? ==> pos + read.value.1 <= |lines|
    ensures read.Some? ==>
              CollectAll(requests, lines, parse)
              == Prepend(decisions + [read.value.0], pos + read.value.1,
                         CollectAll(requests[i + 1..], lines[pos + read.value.1..], parse))
  {
    var action := requests[i];
    prompt := Show(configMap, action);
    read := DecideOne(action, lines[pos..], parse);
    CollectAdvance(requests, i, lines, pos, decisions, read, parse);
  }

  /** The console side of the review: shows each action, then reads its decision. */
  method CollectDecisions<J>(interrupt: InterruptValue<J>, lines: seq<string>, parse: string -> Option<J>)
    returns (collected: Option<(seq<Decision<J>>, nat)>, shown: seq<Prompt<J>>)
    ensures collected == CollectAll(interrupt.actionRequests, lines, parse)
    ensures |shown| <= |interrupt.actionRequests|
    ensures collected.Some? ==> |shown| == |interrupt.actionRequests|
    ensures shown == Prompts(ConfigMap(interrupt.reviewConfigs), interrupt.actionRequests[..|shown|])
    ensures collected.None? ==>
              && 0 < |shown|
              && CollectAll(interrupt.actionRequests[..|shown| - 1], lines, parse).Some?
              && CollectAll(interrupt.actionRequests[..|shown|], lines, parse).None?
  {
    var requests := interrupt.actionRequests;
    var configMap := ConfigMap(interrupt.reviewConfigs);
    var decisions: seq<Decision<J>> := [];
    var pos: nat := 0;
    shown := [];
    CollectStart(requests, lines, parse);
    assert requests[..0] == [];
    for i := 0 to |requests|
      invariant pos <= |lines|
      invariant |decisions| == i && |shown| == i
      invariant shown == Prompts(configMap, requests[..i])
      invariant CollectAll(requests, lines, parse) == Prepend(decisions, pos, CollectAll(requests[i..], lines[pos..], parse))
      invariant CollectAll(requests[..i], lines, parse) == Some((decisions, pos))
    {
      var prompt, read := ReviewOne(configMap, requests, i, lines, pos, parse, decisions);
      PrefixSnoc(requests, i);
      CollectSnoc(requests[..i], requests[i], lines, parse, decisions, pos);
      PromptsStep(configMap, requests, i);
      shown := shown + [prompt];
      if read.None? {
        return None, shown;
      }
      decisions := decisions + [read.value.0];
      pos := pos + read.value.1;
    }
    CollectDone(requests, lines, pos, decisions, parse);
    collected := Some((decisions, pos));
  }
}
