/** The gate in front of remote tool requests: a bounded memory of request ids, and eight permits. */
module ToolGate {
  import opened Wrappers

  type byte = x: int | 0 <= x < 256

  const MAX_ID_BYTES: nat := 128
  const MAX_NAME_BYTES: nat := 128
  const MAX_ARGUMENT_BYTES: nat := 256 * 1024
  const MAX_IN_FLIGHT: nat := 8
  const REMEMBERED: nat := 1024

  // VCPMobileCLI
  const CLI: seq<byte> := [86, 67, 80, 77, 111, 98, 105, 108, 101, 67, 76, 73]

  // ---- What is hashed

  /** A length as eight bytes, the highest first; lengths are 64 bits wide. */
  function BigEndian(n: nat, width: nat): (r: seq<byte>)
    ensures |r| == width
  {
    if width == 0 then [] else BigEndian(n / 256, width - 1) + [n % 256]
  }

  function Power(k: nat): nat { if k == 0 then 1 else 256 * Power(k - 1) }

  /** The number that bytes spell, the highest first. */
  function Spelled(s: seq<byte>): nat {
    if s == [] then 0 else 256 * Spelled(s[..|s| - 1]) + s[|s| - 1]
  }

  /** The bytes spell the length back, if it fits them. */
  lemma {:induction false} BigEndianSpells(n: nat, width: nat)
    requires n < Power(width)
    ensures Spelled(BigEndian(n, width)) == n
  {
    if width > 0 {
      var x := BigEndian(n / 256, width - 1);
      assert (x + [n % 256])[..width - 1] == x;
      assert n / 256 < Power(width - 1);
      BigEndianSpells(n / 256, width - 1);
    }
  }

  lemma BigEndianInjective(a: nat, b: nat, width: nat)
    requires a < Power(width) && b < Power(width) && BigEndian(a, width) == BigEndian(b, width)
    ensures a == b
  {
    BigEndianSpells(a, width);
    BigEndianSpells(b, width);
  }

  function Framed(s: seq<byte>): seq<byte> { BigEndian(|s|, 8) + s }

  /** The bytes that tool_request_digest feeds to the hash. */
  function DigestInput(name: seq<byte>, args: seq<byte>, context: Option<seq<byte>>): seq<byte> {
    Framed(name) + (Framed(args) + (if context.Some? then [1] + Framed(context.value) else [0]))
  }

  predicate Fits(s: seq<byte>) { |s| < Power(8) }

  /** Each part is found again where the lengths in front of it say: name, arguments, a mark, and the context. */
  lemma DigestLayout(name: seq<byte>, args: seq<byte>, context: Option<seq<byte>>)
    requires Fits(name) && Fits(args) && (context.Some? ==> Fits(context.value))
    ensures var d, n, a := DigestInput(name, args, context), |name|, |args|;
            && |d| == 17 + n + a + (if context.Some? then 8 + |context.value| else 0)
            && Spelled(d[..8]) == n && d[8..8 + n] == name
            && Spelled(d[8 + n..16 + n]) == a && d[16 + n..16 + n + a] == args
            && d[16 + n + a] == (if context.Some? then 1 else 0)
            && (context.Some? ==> Spelled(d[17 + n + a..25 + n + a]) == |context.value| && d[25 + n + a..] == context.value)
  {
    var d, n, a := DigestInput(name, args, context), |name|, |args|;
    assert d[..8] == BigEndian(n, 8) && d[8 + n..16 + n] == BigEndian(a, 8);
    BigEndianSpells(n, 8);
    BigEndianSpells(a, 8);
    if context.Some? {
      assert d[17 + n + a..25 + n + a] == BigEndian(|context.value|, 8);
      BigEndianSpells(|context.value|, 8);
    }
  }

  /** Two requests are hashed over the same bytes only if they agree in name, arguments and context. */
  lemma DigestInputInjective(n: seq<byte>, a: seq<byte>, c: Option<seq<byte>>, n': seq<byte>, a': seq<byte>, c': Option<seq<byte>>)
    requires Fits(n) && Fits(a) && Fits(n') && Fits(a') && (c.Some? ==> Fits(c.value)) && (c'.Some? ==> Fits(c'.value))
    requires DigestInput(n, a, c) == DigestInput(n', a', c')
    ensures n == n' && a == a' && c == c'
  {
    DigestLayout(n, a, c);
    DigestLayout(n', a', c');
  }

  // ---- Claims

  datatype Request = Request(id: seq<byte>, name: seq<byte>, args: seq<byte>, context: Option<seq<byte>>)

  datatype Gate = Gate(seen: map<seq<byte>, seq<byte>>, order: seq<seq<byte>>, inFlight: nat)

  datatype Refusal = BadId | BadName | ArgsTooLarge | Conflict | Duplicate | Busy

  datatype Verdict = Claimed(gate: Gate) | Refused(why: Refusal)

  const Fresh := Gate(map[], [], 0)

  /** The digest stands for the hash of its input. */
  function Digest(q: Request): seq<byte> { DigestInput(q.name, q.args, q.context) }

  function Malformed(q: Request): Option<Refusal> {
    if q.id == [] || |q.id| > MAX_ID_BYTES then Some(BadId)
    else if q.name == [] || |q.name| > MAX_NAME_BYTES then Some(BadName)
    else if |q.args| > MAX_ARGUMENT_BYTES then Some(ArgsTooLarge)
    else None
  }

  /** Room is made at the front of the queue. */
  function Evicted(seen: map<seq<byte>, seq<byte>>, order: seq<seq<byte>>): (map<seq<byte>, seq<byte>>, seq<seq<byte>>)
    decreases |order|
  {
    if |order| >= REMEMBERED then Evicted(seen - {order[0]}, order[1..]) else (seen, order)
  }

  function Decide(g: Gate, q: Request): Verdict {
    if Malformed(q).Some? then Refused(Malformed(q).value)
    else if q.id in g.seen && g.seen[q.id] != Digest(q) then Refused(Conflict)
    else if q.id in g.seen && q.name != CLI then Refused(Duplicate)
    else if g.inFlight >= MAX_IN_FLIGHT then Refused(Busy)
    else if q.id in g.seen then Claimed(g.(inFlight := g.inFlight + 1))
    else
      var (seen, order) := Evicted(g.seen, g.order);
      Claimed(Gate(seen[q.id := Digest(q)], order + [q.id], g.inFlight + 1))
  }

  predicate NoDuplicates(s: seq<seq<byte>>) { forall i, j :: 0 <= i < j < |s| ==> s[i] != s[j] }

  /** The queue holds each remembered id once, and at most 1024 of them; at most eight requests are in flight. */
  ghost predicate Valid(g: Gate) {
    && NoDuplicates(g.order)
    && (forall id :: id in g.seen <==> id in g.order)
    && |g.order| <= REMEMBERED
    && g.inFlight <= MAX_IN_FLIGHT
  }

  lemma ClaimKeeps(g: Gate, q: Request)
    requires Valid(g)
    ensures Decide(g, q).Claimed? ==> Valid(Decide(g, q).gate)
  {
    if |g.order| >= REMEMBERED && q.id !in g.seen {
      assert Evicted(g.seen, g.order) == (g.seen - {g.order[0]}, g.order[1..]);
      forall id | id in g.order && id != g.order[0] ensures id in g.order[1..] {
        var i :| 0 <= i < |g.order| && g.order[i] == id;
        assert g.order[1..][i - 1] == id;
      }
    }
  }

  method CheckLimits(q: Request) returns (why: Option<Refusal>)
    ensures why == Malformed(q)
  {
    if q.id == [] || |q.id| > MAX_ID_BYTES { return Some(BadId); }
    if q.name == [] || |q.name| > MAX_NAME_BYTES { return Some(BadName); }
    if |q.args| > MAX_ARGUMENT_BYTES { return Some(ArgsTooLarge); }
    return None;
  }

  /** Which requests are admitted: those within the limits that are new, or that repeat a request for the one tool that
      may be resumed, while fewer than eight are in flight. */
  ghost predicate Admissible(g: Gate, q: Request) {
    && 1 <= |q.id| <= 128 && 1 <= |q.name| <= 128 && |q.args| <= 0x4_0000
    && (q.id in g.seen ==> g.seen[q.id] == Digest(q) && Utf8Of(q.name, "VCPMobileCLI"))
    && g.inFlight < 8
  }

  ghost predicate Utf8Of(s: seq<byte>, ascii: string) {
    |s| == |ascii| && forall i :: 0 <= i < |s| ==> s[i] == ascii[i] as int
  }

  /** What is remembered after a request is admitted: a new one with its digest, behind all the others; the oldest of
      1024 goes. */
  ghost predicate Remembers(was: Gate, q: Request, now: Gate) {
    if q.id in was.seen then now.seen == was.seen && now.order == was.order
    else if |was.order| < 1024 then now.seen == was.seen[q.id := Digest(q)] && now.order == was.order + [q.id]
    else now.seen == (was.seen - {was.order[0]})[q.id := Digest(q)] && now.order == was.order[1..] + [q.id]
  }

  /** Exactly the admissible requests are claimed, at one permit each. */
  lemma ClaimedIff(g: Gate, q: Request)
    requires Valid(g)
    ensures Decide(g, q).Claimed? <==> Admissible(g, q)
    ensures Decide(g, q).Claimed? ==> Remembers(g, q, Decide(g, q).gate) && Decide(g, q).gate.inFlight == g.inFlight + 1
  {
    CliIs(q.name);
    if |g.order| >= REMEMBERED && q.id !in g.seen {
      assert Evicted(g.seen, g.order) == (g.seen - {g.order[0]}, g.order[1..]);
    }
  }

  lemma CliIs(name: seq<byte>)
    ensures name == CLI <==> Utf8Of(name, "VCPMobileCLI")
  {
    if Utf8Of(name, "VCPMobileCLI") { assert name == CLI; }
  }

  /** Why a request is refused: the first of the checks that it fails. */
  lemma RefusedBecause(g: Gate, q: Request)
    requires Decide(g, q).Refused?
    ensures var why := Decide(g, q).why;
            && (why == BadId <==> !(1 <= |q.id| <= 128))
            && (why == BadName <==> 1 <= |q.id| <= 128 && !(1 <= |q.name| <= 128))
            && (why == ArgsTooLarge <==> 1 <= |q.id| <= 128 && 1 <= |q.name| <= 128 && |q.args| > 0x4_0000)
            && (why == Conflict || why == Duplicate ==> q.id in g.seen && (why == Conflict <==> g.seen[q.id] != Digest(q)))
            && (why == Duplicate ==> !Utf8Of(q.name, "VCPMobileCLI"))
            && (why == Busy ==> g.inFlight >= 8 && Admissible(g.(inFlight := 0), q))
  {
    CliIs(q.name);
  }

  class ToolRequestGate {
    var seen: map<seq<byte>, seq<byte>>
    var order: seq<seq<byte>>
    var permits: nat

    function Now(): Gate
      requires permits <= MAX_IN_FLIGHT
      reads this
    {
      Gate(seen, order, MAX_IN_FLIGHT - permits)
    }

    constructor ()
      ensures permits == MAX_IN_FLIGHT && Now() == Fresh && Valid(Now())
    {
      seen, order, permits := map[], [], MAX_IN_FLIGHT;
    }

    /** try_claim */
    method TryClaim(q: Request) returns (refusal: Option<Refusal>)
      requires permits <= MAX_IN_FLIGHT && Valid(Now())
      modifies this
      ensures permits <= MAX_IN_FLIGHT && Valid(Now())
      ensures var v := Decide(old(Now()), q);
              if v.Claimed? then refusal == None && Now() == v.gate else refusal == Some(v.why) && Now() == old(Now())
      ensures refusal.None? <==> Admissible(old(Now()), q)
      ensures refusal.None? ==> permits == old(permits) - 1 && Remembers(old(Now()), q, Now())
    {
      ClaimedIff(Now(), q);
      refusal := CheckLimits(q);
      if refusal.Some? { return; }
      if q.id in seen {
        if seen[q.id] != Digest(q) { return Some(Conflict); }
        if q.name != CLI { return Some(Duplicate); }
      }
      if permits == 0 { return Some(Busy); }
      ClaimKeeps(Now(), q);
      permits := permits - 1;
      if q.id !in seen {
        while |order| >= REMEMBERED
          invariant permits == old(permits) - 1 && Evicted(seen, order) == Evicted(old(seen), old(order))
          decreases |order|
        {
          seen, order := seen - {order[0]}, order[1..];
        }
        seen, order := seen[q.id := Digest(q)], order + [q.id];
      }
    }

    /** The permit of a finished request is dropped. */
    method Finish()
      requires permits < MAX_IN_FLIGHT && Valid(Now())
      modifies `permits
      ensures permits <= MAX_IN_FLIGHT && Valid(Now()) && Now() == After(old(Now()), Done)
    {
      permits := permits + 1;
    }
  }

  // ---- Whole runs

  datatype Event = Claim(q: Request) | Done

  function After(g: Gate, e: Event): Gate {
    match e
    case Claim(q) => (match Decide(g, q) case Claimed(r) => r case Refused(_) => g)
    case Done => if g.inFlight > 0 then g.(inFlight := g.inFlight - 1) else g
  }

  function AfterAll(g: Gate, es: seq<Event>): Gate
    decreases |es|
  {
    if es == [] then g else AfterAll(After(g, es[0]), es[1..])
  }

  /** The event records an id not remembered before. */
  predicate Records(g: Gate, e: Event) { e.Claim? && e.q.id !in g.seen && Decide(g, e.q).Claimed? }

  function Recordings(g: Gate, es: seq<Event>): nat
    decreases |es|
  {
    if es == [] then 0 else (if Records(g, es[0]) then 1 else 0) + Recordings(After(g, es[0]), es[1..])
  }

  /** How many ids were recorded after this one. */
  function Behind(order: seq<seq<byte>>, id: seq<byte>): nat
    requires id in order
    ensures Behind(order, id) < |order|
  {
    if order[0] == id then |order| - 1 else Behind(order[1..], id)
  }

  lemma {:induction false} BehindLast(order: seq<seq<byte>>, x: seq<byte>, id: seq<byte>)
    ensures x !in order ==> Behind(order + [x], x) == 0
    ensures id in order ==> Behind(order + [x], id) == Behind(order, id) + 1
  {
    if order != [] {
      assert (order + [x])[1..] == order[1..] + [x];
      BehindLast(order[1..], x, id);
    }
  }

  lemma RecordStep(g: Gate, q: Request, id: seq<byte>)
    requires Valid(g) && Records(g, Claim(q)) && id in g.order && Behind(g.order, id) + 1 < REMEMBERED
    ensures var r := After(g, Claim(q));
            Valid(r) && id in r.order && r.seen[id] == g.seen[id] && Behind(r.order, id) == Behind(g.order, id) + 1
  {
    ClaimKeeps(g, q);
    if |g.order| >= REMEMBERED {
      assert Evicted(g.seen, g.order) == (g.seen - {g.order[0]}, g.order[1..]);
      assert g.order[0] != id && id in g.order[1..];
      BehindLast(g.order[1..], q.id, id);
    } else {
      BehindLast(g.order, q.id, id);
    }
  }

  /** An id stays remembered until 1024 later ids are recorded. */
  lemma {:induction false} StaysRemembered(g: Gate, id: seq<byte>, es: seq<Event>)
    requires Valid(g) && id in g.order && Behind(g.order, id) + Recordings(g, es) < REMEMBERED
    ensures var r := AfterAll(g, es); Valid(r) && id in r.seen && r.seen[id] == g.seen[id]
    decreases |es|
  {
    if es != [] {
      if Records(g, es[0]) { RecordStep(g, es[0].q, id); }
      StaysRemembered(After(g, es[0]), id, es[1..]);
    }
  }

  /** The context of a request is as long as its length can say. */
  predicate Sized(q: Request) { q.context.Some? ==> Fits(q.context.value) }

  /** The same id admitted again means that 1024 others were recorded since, or that the very same request
      came for the tool that may be resumed. */
  lemma AdmittedAgain(g: Gate, q: Request, es: seq<Event>, again: Request)
    requires Valid(g) && Records(g, Claim(q)) && again.id == q.id && Sized(q) && Sized(again)
    requires Decide(AfterAll(After(g, Claim(q)), es), again).Claimed?
    ensures Recordings(After(g, Claim(q)), es) >= REMEMBERED || (again == q && q.name == CLI)
  {
    var r := After(g, Claim(q));
    ClaimKeeps(g, q);
    BehindLast(Evicted(g.seen, g.order).1, q.id, q.id);
    assert q.id !in Evicted(g.seen, g.order).1 by {
      if |g.order| >= REMEMBERED { assert Evicted(g.seen, g.order) == (g.seen - {g.order[0]}, g.order[1..]); }
    }
    if Recordings(r, es) < REMEMBERED {
      StaysRemembered(r, q.id, es);
      DigestInputInjective(q.name, q.args, q.context, again.name, again.args, again.context);
    }
  }

  /** An admitted request for any other tool was not remembered, so the statement above holds for it. */
  lemma OrdinaryAdmissionRecords(g: Gate, q: Request)
    ensures Decide(g, q).Claimed? && q.name != CLI ==> Records(g, Claim(q))
  {}

  lemma {:induction false} RunStaysValid(es: seq<Event>)
    ensures Valid(AfterAll(Fresh, es))
  {
    ValidAfterAll(Fresh, es);
  }

  lemma {:induction false} ValidAfterAll(g: Gate, es: seq<Event>)
    requires Valid(g)
    ensures Valid(AfterAll(g, es))
    decreases |es|
  {
    if es != [] {
      if es[0].Claim? { ClaimKeeps(g, es[0].q); }
      ValidAfterAll(After(g, es[0]), es[1..]);
    }
  }
}
