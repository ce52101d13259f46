/** The streaming tools of one connection session fall due again and again, at multiples of their interval from
    the start of the session, however late the ticks come. */
module Scheduler {

  const SECOND: nat := 1_000_000_000

  /** A tool and how often it reports; times are in nanoseconds. */
  datatype Spec = Spec(name: string, interval: nat)

  datatype Scheduled = Scheduled(spec: Spec, nextDue: nat)

  /** No tool reports more often than once a second. */
  function Interval(spec: Spec): (i: nat)
    ensures i >= 1_000_000_000 && i >= spec.interval && (i == 1_000_000_000 || i == spec.interval)
  {
    if spec.interval < SECOND then SECOND else spec.interval
  }

  function Times(k: nat, i: nat): nat { k * i }

  /** Due k whole intervals after the start of the session. */
  predicate OnGrid(t: Scheduled, start: nat, k: nat) { t.nextDue == start + Times(k, Interval(t.spec)) }

  /** Handed out f times until last: never more than once for each interval begun. */
  predicate Bounded(f: nat, spec: Spec, start: nat, last: nat) { f == 0 || start + Times(f - 1, Interval(spec)) <= last }

  /** A tool on its grid, handed out no more often than it passed a grid point, nor than intervals began. */
  predicate Kept(t: Scheduled, k: nat, f: nat, start: nat, last: nat) {
    OnGrid(t, start, k) && f <= k && Bounded(f, t.spec, start, last)
  }

  /** What a tick at now does to a tool, and to the number of times it was handed out. */
  predicate Ticked(before: Scheduled, after: Scheduled, f: nat, g: nat, now: nat) {
    && after.spec == before.spec
    && if before.nextDue <= now then now < after.nextDue <= now + Interval(after.spec) && g == f + 1
       else after == before && g == f
  }

  /** The tools due at now, in order. */
  function DueNow(tools: seq<Scheduled>, now: nat): seq<Spec> {
    if tools == [] then []
    else
      var n := |tools| - 1;
      DueNow(tools[..n], now) + if tools[n].nextDue <= now then [tools[n].spec] else []
  }

  /** How many handings-out the counts gained. */
  function Gained(before: seq<nat>, after: seq<nat>): int
    requires |after| == |before|
  {
    if before == [] then 0
    else
      var n := |before| - 1;
      Gained(before[..n], after[..n]) + after[n] - before[n]
  }

  /** The list holds the tool of every count that grew, in the place that the counts before it leave, and nothing
      else. */
  ghost predicate Lists(due: seq<Spec>, tools: seq<Scheduled>, before: seq<nat>, after: seq<nat>)
    requires |before| == |after| == |tools|
  {
    && |due| == Gained(before, after)
    && forall i :: 0 <= i < |tools| && after[i] != before[i] ==>
         var place := Gained(before[..i], after[..i]);
         0 <= place < |due| && due[place] == tools[i].spec
  }

  /** A count grows by one exactly where the tool was due. */
  ghost predicate Counts(tools: seq<Scheduled>, before: seq<nat>, after: seq<nat>, now: nat)
    requires |before| == |after| == |tools|
  {
    forall i :: 0 <= i < |tools| ==> after[i] == before[i] + if tools[i].nextDue <= now then 1 else 0
  }

  lemma {:induction false} DueIsListed(tools: seq<Scheduled>, before: seq<nat>, after: seq<nat>, now: nat)
    requires |before| == |after| == |tools| && Counts(tools, before, after, now)
    ensures Lists(DueNow(tools, now), tools, before, after)
  {
    if tools != [] {
      var n := |tools| - 1;
      DueIsListed(tools[..n], before[..n], after[..n], now);
      forall i | 0 <= i < n && after[i] != before[i]
        ensures var place := Gained(before[..i], after[..i]);
                0 <= place < |DueNow(tools[..n], now)| && DueNow(tools[..n], now)[place] == tools[i].spec
      {
        assert tools[..n][i] == tools[i] && before[..n][..i] == before[..i] && after[..n][..i] == after[..i];
        assert after[..n][i] != before[..n][i];
      }
    }
  }

  lemma {:induction false} Grows(j: nat, k: nat, i: nat)
    requires j <= k
    ensures Times(j, i) <= Times(k, i)
    decreases k - j
  {
    if j < k {
      Grows(j + 1, k, i);
    }
  }

  /** In other words, at most the whole intervals elapsed and one. */
  lemma BoundedByElapsed(f: nat, spec: Spec, start: nat, last: nat)
    requires Bounded(f, spec, start, last) && start <= last
    ensures f <= (last - start) / Interval(spec) + 1
  {
    var i, e := Interval(spec), last - start;
    assert e == Times(e / i, i) + e % i;
    if f > e / i + 1 { Grows(e / i + 1, f - 1, i); }
  }

  class StreamingScheduler {
    var tools: seq<Scheduled>
    const start: nat
    // how many intervals after the start each tool is next due, how often it was handed out, and the last tick
    ghost var steps: seq<nat>
    ghost var fired: seq<nat>
    ghost var last: nat

    ghost predicate Valid()
      reads this
    {
      && |steps| == |tools| && |fired| == |tools| && start <= last
      && forall i :: 0 <= i < |tools| ==> Kept(tools[i], steps[i], fired[i], start, last)
    }

    /** All tools are due at once. */
    constructor (plan: seq<Spec>, now: nat)
      requires plan != []
      ensures Valid() && start == last == now && |tools| == |plan|
      ensures forall i :: 0 <= i < |plan| ==> tools[i] == Scheduled(plan[i], now) && fired[i] == 0
    {
      tools := seq(|plan|, i requires 0 <= i < |plan| => Scheduled(plan[i], now));
      start, last := now, now;
      steps, fired := seq(|plan|, _ => 0), seq(|plan|, _ => 0);
    }

    /** The least of the next due times. */
    method NextDeadline() returns (t: nat)
      requires tools != []
      ensures (exists i :: 0 <= i < |tools| && tools[i].nextDue == t) && forall i :: 0 <= i < |tools| ==> t <= tools[i].nextDue
    {
      t := tools[0].nextDue;
      for i := 1 to |tools|
        invariant exists j :: 0 <= j < i && tools[j].nextDue == t
        invariant forall j :: 0 <= j < i ==> t <= tools[j].nextDue
      {
        if tools[i].nextDue < t { t := tools[i].nextDue; }
      }
    }

    /** take_due: exactly the tools that are due are handed out, once each and in order. Each is then due again
        on its grid, after now and at most one interval after it; over all ticks so far it was handed out at
        most once for each interval begun, however late the ticks came. */
    method TakeDue(now: nat) returns (due: seq<Spec>)
      requires Valid() && last <= now
      modifies this
      ensures Valid() && last == now && |tools| == |old(tools)| && due == DueNow(old(tools), now)
      ensures forall i :: 0 <= i < |tools| ==> Ticked(old(tools)[i], tools[i], old(fired)[i], fired[i], now)
      ensures Lists(due, tools, old(fired), fired)
    {
      due := [];
      last := now;
      for i := 0 to |tools|
        invariant Valid() && last == now && |tools| == |old(tools)| && due == DueNow(old(tools)[..i], now)
        invariant forall j :: i <= j < |tools| ==> tools[j] == old(tools)[j] && fired[j] == old(fired)[j]
        invariant forall j :: 0 <= j < i ==> Ticked(old(tools)[j], tools[j], old(fired)[j], fired[j], now)
      {
        assert old(tools)[..i + 1][..i] == old(tools)[..i];
        if tools[i].nextDue <= now {
          due := due + [tools[i].spec];
          HandOut(i, now);
        }
      }
      assert old(tools)[..|tools|] == old(tools);
      DueIsListed(old(tools), old(fired), fired, now);
    }

    /** Tool i, which is due, is handed out and moved past now. */
    method HandOut(i: nat, now: nat)
      requires Valid() && last == now && i < |tools| && tools[i].nextDue <= now
      modifies `tools, `steps, `fired
      ensures Valid() && |tools| == |old(tools)| && Ticked(old(tools)[i], tools[i], old(fired)[i], fired[i], now)
      ensures forall j :: 0 <= j < |tools| && j != i ==> tools[j] == old(tools)[j] && fired[j] == old(fired)[j]
    {
      FiredOnce(tools[i].spec, fired[i], steps[i], now);
      var next, k := Advance(tools[i], now, steps[i]);
      tools, steps, fired := tools[i := next], steps[i := k], fired[i := fired[i] + 1];
    }

    /** Handing a due tool out once more stays within the bound. */
    lemma FiredOnce(spec: Spec, f: nat, k: nat, now: nat)
      requires f <= k && start + Times(k, Interval(spec)) <= now
      ensures Bounded(f + 1, spec, start, now)
    {
      Grows(f, k, Interval(spec));
    }

    /** The inner loop: steps of one interval until now is passed. */
    method Advance(t: Scheduled, now: nat, ghost k: nat) returns (r: Scheduled, ghost j: nat)
      requires OnGrid(t, start, k) && t.nextDue <= now
      ensures r.spec == t.spec && OnGrid(r, start, j) && j > k && now < r.nextDue <= now + Interval(t.spec)
    {
      var interval := Interval(t.spec);
      r, j := t, k;
      while r.nextDue <= now
        invariant r.spec == t.spec && OnGrid(r, start, j) && r.nextDue <= now + interval && j >= k
        invariant r.nextDue > now ==> j > k
        decreases now + interval - r.nextDue
      {
        r, j := r.(nextDue := r.nextDue + interval), j + 1;
      }
    }
  }
}
