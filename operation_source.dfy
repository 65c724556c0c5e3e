/**
  `OperationSourceService`: an ambient "current source" label. `Begin` sets a new label and
  returns a scope whose disposal writes back the label that was current before that
  `Begin`; nothing checks that scopes are disposed in order.
*/
module OperationSource {
  import opened Wrappers

  /** What `CurrentSource` reports while no label is set. */
  const NotAvailable: string := "N/A"

  /** `CurrentSource` for a stored value: the label, or "N/A" when there is none. */
  function Shown(value: Option<string>): (s: string)
    ensures value.Some? ==> s == value.value
    ensures value.None? ==> s == NotAvailable
  {
    value.GetOr(NotAvailable)
  }

  class OperationSourceService {
    /** The stored label (`_currentSource.Value`), `None` until a scope sets one. */
    var currentSource: Option<string>

    constructor ()
      ensures currentSource == None && CurrentSource() == NotAvailable
    {
      currentSource := None;
    }

    function CurrentSource(): string
      reads this
    {
      Shown(currentSource)
    }

    /** `Begin(source)`: remembers the stored label, replaces it and hands back the scope
        that will restore it. */
    method Begin(source: string) returns (scope: Scope)
      modifies this
      ensures currentSource == Some(source) && CurrentSource() == source
      ensures fresh(scope) && scope.service == this && scope.previous == old(currentSource)
    {
      var previous := currentSource;
      currentSource := Some(source);
      scope := new Scope(this, previous);
    }
  }

  /** The disposable `Begin` returns, reduced to what its dispose action closes over. */
  class Scope {
    const service: OperationSourceService
    const previous: Option<string>

    constructor (service: OperationSourceService, previous: Option<string>)
      ensures this.service == service && this.previous == previous
    {
      this.service := service;
      this.previous := previous;
    }

    /** `Dispose`: writes the captured label back, whatever happened since. */
    method Dispose()
      modifies service
      ensures service.currentSource == previous
    {
      service.currentSource := previous;
    }
  }

  // ---------------------------------------------------------------------------------------
  // The service over a whole sequence of calls

  /** The stored label and, for each scope handed out so far (numbered from 0 in the order
      `Begin` created them), the label it captured. */
  datatype SourceState = SourceState(current: Option<string>, captured: seq<Option<string>>)

  const Initial: SourceState := SourceState(None, [])

  /** A call: `Begin(source)`, or `Dispose` on the scope with the given number. */
  datatype SourceCall = BeginCall(source: string) | DisposeCall(scope: nat)

  /** One call, as `Begin` and `Scope.Dispose` above perform it. A number no `Begin` has
      handed out names no scope and changes nothing. */
  function Step(st: SourceState, call: SourceCall): SourceState {
    match call
    case BeginCall(s) => SourceState(Some(s), st.captured + [st.current])
    case DisposeCall(k) => if k < |st.captured| then st.(current := st.captured[k]) else st
  }

  function Run(st: SourceState, calls: seq<SourceCall>): SourceState
    decreases |calls|
  {
    if |calls| == 0 then st else Run(Step(st, calls[0]), calls[1..])
  }

  /** Scopes already handed out keep what they captured; calls only add scopes. */
  lemma {:induction false} RunKeepsCaptured(st: SourceState, calls: seq<SourceCall>)
    ensures |Run(st, calls).captured| >= |st.captured|
    ensures Run(st, calls).captured[..|st.captured|] == st.captured
    decreases |calls|
  {
    if |calls| > 0 {
      var next := Step(st, calls[0]);
      assert next.captured[..|st.captured|] == st.captured;
      RunKeepsCaptured(next, calls[1..]);
    }
  }

  /** Before any `Begin` the service reports "N/A"; right after `Begin(s)` it reports `s`. */
  lemma BeginSetsSource(st: SourceState, s: string)
    ensures Shown(Initial.current) == NotAvailable
    ensures Shown(Step(st, BeginCall(s)).current) == s
  {
  }

  /** Disposing the scope of a `Begin` brings back the label current before that `Begin`
      (including the return to "N/A"), whatever calls came in between. */
  lemma DisposeRestoresPrevious(st: SourceState, s: string, between: seq<SourceCall>)
    ensures var scope := |st.captured|;
      Step(Run(Step(st, BeginCall(s)), between), DisposeCall(scope)).current == st.current
  {
    var afterBegin := Step(st, BeginCall(s));
    RunKeepsCaptured(afterBegin, between);
    var r := Run(afterBegin, between);
    assert r.captured[|st.captured|] == r.captured[..|afterBegin.captured|][|st.captured|];
  }

  /** Disposing the same scope twice in a row has the effect of disposing it once. */
  lemma DisposeTwiceIsDisposeOnce(st: SourceState, k: nat)
    ensures Step(Step(st, DisposeCall(k)), DisposeCall(k)) == Step(st, DisposeCall(k))
  {
  }

  /** Out-of-order disposal: after `Begin(a)` then `Begin(b)`, disposing the outer scope and
      then the inner one leaves `a` current, not the label before `a`. */
  lemma OutOfOrderDisposeLeavesStaleLabel(st: SourceState, a: string, b: string)
    ensures var outer := |st.captured|;
      var afterBoth := Step(Step(st, BeginCall(a)), BeginCall(b));
      && Step(afterBoth, DisposeCall(outer)).current == st.current
      && Step(Step(afterBoth, DisposeCall(outer)), DisposeCall(outer + 1)).current == Some(a)
  {
    var outer := |st.captured|;
    var afterBoth := Step(Step(st, BeginCall(a)), BeginCall(b));
    assert afterBoth.captured == st.captured + [st.current] + [Some(a)];
    assert afterBoth.captured[outer] == st.current && afterBoth.captured[outer + 1] == Some(a);
  }

  /** A `using (Begin(source)) { body }` block, where the body is a sequence of such blocks. */
  datatype Block = Scoped(source: string, body: seq<Block>)

  /** The calls a properly nested block makes; `next` is the number its `Begin` hands out. */
  function BlockCalls(b: Block, next: nat): seq<SourceCall>
    decreases b, 1
  {
    [BeginCall(b.source)] + BodyCalls(b.body, next + 1) + [DisposeCall(next)]
  }

  function BodyCalls(bs: seq<Block>, next: nat): seq<SourceCall>
    decreases bs, 0
  {
    if |bs| == 0 then []
    else
      var first := BlockCalls(bs[0], next);
      first + BodyCalls(bs[1..], next + Begins(first))
  }

  /** How many scopes a sequence of calls creates. */
  function Begins(calls: seq<SourceCall>): nat {
    if |calls| == 0 then 0 else (if calls[0].BeginCall? then 1 else 0) + Begins(calls[1..])
  }

  lemma {:induction false} RunAppend(st: SourceState, xs: seq<SourceCall>, ys: seq<SourceCall>)
    ensures Run(st, xs + ys) == Run(Run(st, xs), ys)
    decreases |xs|
  {
    if |xs| > 0 {
      assert (xs + ys)[1..] == xs[1..] + ys;
      RunAppend(Step(st, xs[0]), xs[1..], ys);
    } else {
      assert xs + ys == ys;
    }
  }

  lemma {:induction false} RunCountsBegins(st: SourceState, calls: seq<SourceCall>)
    ensures |Run(st, calls).captured| == |st.captured| + Begins(calls)
    decreases |calls|
  {
    if |calls| > 0 {
      RunCountsBegins(Step(st, calls[0]), calls[1..]);
    }
  }

  /** Properly nested scopes, disposed last-in-first-out, each restore the label that was
      current when they began: a whole block leaves the label as it found it. */
  lemma {:induction false} NestedBlockRestores(st: SourceState, b: Block)
    ensures Run(st, BlockCalls(b, |st.captured|)).current == st.current
    decreases b, 1
  {
    var next := |st.captured|;
    var begin := Step(st, BeginCall(b.source));
    var body := BodyCalls(b.body, next + 1);
    BodyRestores(begin, b.body);
    RunKeepsCaptured(begin, body);
    var afterBody := Run(begin, body);
    assert afterBody.captured[next] == afterBody.captured[..|begin.captured|][next];
    RunAppend(st, [BeginCall(b.source)], body);
    RunAppend(st, [BeginCall(b.source)] + body, [DisposeCall(next)]);
    assert Run(st, [BeginCall(b.source)]) == begin;
    assert Run(afterBody, [DisposeCall(next)]) == Step(afterBody, DisposeCall(next));
  }

  /** The blocks of a body run one after the other, each restoring the label it found. */
  lemma {:induction false} BodyRestores(st: SourceState, bs: seq<Block>)
    ensures Run(st, BodyCalls(bs, |st.captured|)).current == st.current
    decreases bs, 0
  {
    if |bs| > 0 {
      var first := BlockCalls(bs[0], |st.captured|);
      NestedBlockRestores(st, bs[0]);
      var mid := Run(st, first);
      RunCountsBegins(st, first);
      BodyRestores(mid, bs[1..]);
      RunAppend(st, first, BodyCalls(bs[1..], |st.captured| + Begins(first)));
    }
  }
}
