/** Mentions in a text: a trigger character followed at once by a member's name, whatever the case. */
module Mention {
  import opened Wrappers

  datatype Hit = Hit(start: nat, end: nat, name: string)

  datatype Segment = Segment(text: string, mention: bool)

  datatype Member = Member(id: string, name: string)

  /** The at sign, half or full width. */
  predicate Trigger(c: char) { c == '@' || c == '\U{FF20}' }

  /** White space and line ends, as String.prototype.trim takes them (section 12.2 and 12.3 of ECMA-262). */
  predicate Space(c: char) {
    || '\U{0009}' <= c <= '\U{000D}' || c == ' ' || c == '\U{00A0}' || c == '\U{1680}' || '\U{2000}' <= c <= '\U{200A}'
    || c == '\U{2028}' || c == '\U{2029}' || c == '\U{202F}' || c == '\U{205F}' || c == '\U{3000}' || c == '\U{FEFF}'
  }

  /** These are all of them. */
  lemma SignsAre(c: char)
    ensures Trigger(c) <==> c in "@\U{FF20}"
    ensures Space(c) <==> c in "\t\n\U{000B}\U{000C}\r \U{00A0}\U{1680}\U{2000}\U{2001}\U{2002}\U{2003}\U{2004}\U{2005}"
                              + "\U{2006}\U{2007}\U{2008}\U{2009}\U{200A}\U{2028}\U{2029}\U{202F}\U{205F}\U{3000}\U{FEFF}"
  {}

  function TrimStart(s: string): string { if s != "" && Space(s[0]) then TrimStart(s[1..]) else s }

  function TrimEnd(s: string): string { if s != "" && Space(s[|s| - 1]) then TrimEnd(s[..|s| - 1]) else s }

  function Trim(s: string): string { TrimEnd(TrimStart(s)) }

  /** Lower-casing: each character is folded to a text, which may be longer. */
  function Lower(fold: char -> string, s: string): string {
    if s == "" then "" else fold(s[0]) + Lower(fold, s[1..])
  }

  /** slice: bounds beyond the end are the end. */
  function Slice(s: string, a: nat, b: nat): string
    requires a <= b
  {
    s[if a <= |s| then a else |s|..if b <= |s| then b else |s|]
  }

  /** The test of the scan: the lower-case name stands in the lower-case text at the position after i, counted in
      the text as it is. */
  predicate Follows(lower: string, i: nat, name: string) { name <= Slice(lower, i + 1, i + 1 + |lower|) }

  /** A name that can be mentioned: trimmed, not empty, and in lower case. */
  datatype Candidate = Candidate(name: string, lower: string)

  function CandidatesOf(fold: char -> string, names: seq<string>): (r: seq<Candidate>)
    ensures forall c :: c in r ==> c.name != "" && c.lower == Lower(fold, c.name)
  {
    if names == [] then []
    else
      var n := Trim(names[|names| - 1]);
      CandidatesOf(fold, names[..|names| - 1]) + if n == "" then [] else [Candidate(n, Lower(fold, n))]
  }

  /** Longer names first; among names of one length the earlier stays first. */
  function Placed(s: seq<Candidate>, c: Candidate): (r: seq<Candidate>)
    ensures forall x :: x in r <==> x in s || x == c
  {
    if s == [] then [c]
    else
      var k := |s| - 1;
      assert s == s[..k] + [s[k]];
      if |s[k].lower| >= |c.lower| then s + [c] else Placed(s[..k], c) + [s[k]]
  }

  predicate LongestFirst(s: seq<Candidate>) { forall i, j :: 0 <= i < j < |s| ==> |s[i].lower| >= |s[j].lower| }

  lemma {:induction false} PlacedInOrder(s: seq<Candidate>, c: Candidate)
    requires LongestFirst(s)
    ensures LongestFirst(Placed(s, c))
  {
    if s != [] {
      var k := |s| - 1;
      if |s[k].lower| < |c.lower| {
        PlacedInOrder(s[..k], c);
        var r := Placed(s[..k], c);
        forall i | 0 <= i < |r| ensures |r[i].lower| >= |s[k].lower| {
          assert r[i] in r;
          if r[i] != c { var j :| 0 <= j < k && s[..k][j] == r[i]; assert |s[j].lower| >= |s[k].lower|; }
        }
      }
    }
  }

  /** The sort of the candidates. */
  method Candidates(fold: char -> string, names: seq<string>) returns (cs: seq<Candidate>)
    ensures LongestFirst(cs) && forall c :: c in cs <==> c in CandidatesOf(fold, names)
  {
    cs := [];
    for i := 0 to |names|
      invariant LongestFirst(cs) && forall c :: c in cs <==> c in CandidatesOf(fold, names[..i])
    {
      assert names[..i + 1][..i] == names[..i];
      var n := Trim(names[i]);
      if n != "" {
        PlacedInOrder(cs, Candidate(n, Lower(fold, n)));
        cs := Placed(cs, Candidate(n, Lower(fold, n)));
      }
    }
    assert names[..|names|] == names;
  }

  /** The test that the candidate follows the position. */
  type Test = (nat, Candidate) -> bool

  function StandsAt(fold: char -> string, content: string): Test {
    var lower := Lower(fold, content);
    (i: nat, c: Candidate) => Follows(lower, i, c.lower)
  }

  /** The longest name that follows position i. */
  predicate Longest(test: Test, cs: seq<Candidate>, i: nat, c: Candidate) {
    && c in cs && test(i, c)
    && forall d :: d in cs && test(i, d) ==> |d.lower| <= |c.lower|
  }

  predicate NoneFollows(test: Test, cs: seq<Candidate>, i: nat) { forall c :: c in cs ==> !test(i, c) }

  /** candidates.find */
  method Match(test: Test, cs: seq<Candidate>, i: nat) returns (hit: Option<Candidate>)
    requires LongestFirst(cs)
    ensures hit.Some? ==> Longest(test, cs, i, hit.value)
    ensures hit.None? ==> NoneFollows(test, cs, i)
  {
    for k := 0 to |cs|
      invariant forall j :: 0 <= j < k ==> !test(i, cs[j])
    {
      if test(i, cs[k]) { return Some(cs[k]); }
    }
    return None;
  }

  predicate Covered(hits: seq<Hit>, i: nat) { exists k :: 0 <= k < |hits| && hits[k].start <= i < hits[k].end }

  predicate IsHit(test: Test, cs: seq<Candidate>, content: string, h: Hit) {
    && h.start < |content| && Trigger(content[h.start]) && h.end == h.start + 1 + |h.name|
    && exists c :: c in cs && c.name == h.name && Longest(test, cs, h.start, c)
  }

  predicate InOrder(hits: seq<Hit>) { forall j, k :: 0 <= j < k < |hits| ==> hits[j].end <= hits[k].start }

  predicate AllHits(test: Test, cs: seq<Candidate>, content: string, hits: seq<Hit>) {
    InOrder(hits) && forall k :: 0 <= k < |hits| ==> IsHit(test, cs, content, hits[k])
  }

  /** Every trigger before a position that passes the test lies in a hit. */
  predicate NoneMissed(test: Test, cs: seq<Candidate>, content: string, hits: seq<Hit>, to: nat) {
    forall i :: 0 <= i < to && i < |content| && Trigger(content[i]) && !NoneFollows(test, cs, i) ==> Covered(hits, i)
  }

  /** scanMentionHits: the hits pass the test with the longest name possible, they are in order, without overlap, and
      no position outside a hit passes it. */
  method ScanMentionHits(fold: char -> string, content: string, names: seq<string>) returns (hits: seq<Hit>)
    ensures AllHits(StandsAt(fold, content), CandidatesOf(fold, names), content, hits)
    ensures NoneMissed(StandsAt(fold, content), CandidatesOf(fold, names), content, hits, |content|)
  {
    var cs := Candidates(fold, names);
    hits := Scan(StandsAt(fold, content), cs, content);
    SameCandidates(StandsAt(fold, content), cs, CandidatesOf(fold, names), content, hits);
  }

  lemma SameCandidates(test: Test, cs: seq<Candidate>, ds: seq<Candidate>, content: string, hits: seq<Hit>)
    requires forall c :: c in cs <==> c in ds
    requires AllHits(test, cs, content, hits) && NoneMissed(test, cs, content, hits, |content|)
    ensures AllHits(test, ds, content, hits) && NoneMissed(test, ds, content, hits, |content|)
  {
    forall k | 0 <= k < |hits| ensures IsHit(test, ds, content, hits[k]) {
      assert IsHit(test, cs, content, hits[k]);
      var c :| c in cs && c.name == hits[k].name && Longest(test, cs, hits[k].start, c);
      assert Longest(test, ds, hits[k].start, c);
    }
  }

  /** The loop over the text. */
  method Scan(test: Test, cs: seq<Candidate>, content: string) returns (hits: seq<Hit>)
    requires LongestFirst(cs)
    ensures AllHits(test, cs, content, hits) && NoneMissed(test, cs, content, hits, |content|)
  {
    hits := [];
    var i := 0;
    while i < |content|
      invariant Scanned(test, cs, content, hits, i)
    {
      var hit := None;
      if Trigger(content[i]) { hit := Match(test, cs, i); }
      if hit.Some? {
        var h := Hit(i, i + 1 + |hit.value.name|, hit.value.name);
        HitAdded(test, cs, content, hits, h, hit.value);
        hits := hits + [h];
        i := h.end;
      } else {
        NoneSkipped(test, cs, content, hits, i);
        i := i + 1;
      }
    }
  }

  /** The hits up to position i are found. */
  ghost predicate Scanned(test: Test, cs: seq<Candidate>, content: string, hits: seq<Hit>, i: nat) {
    && AllHits(test, cs, content, hits) && NoneMissed(test, cs, content, hits, i)
    && (hits == [] || hits[|hits| - 1].end <= i)
  }

  lemma NoneSkipped(test: Test, cs: seq<Candidate>, content: string, hits: seq<Hit>, i: nat)
    requires Scanned(test, cs, content, hits, i) && i < |content| && (!Trigger(content[i]) || NoneFollows(test, cs, i))
    ensures Scanned(test, cs, content, hits, i + 1)
  {}

  lemma HitAdded(test: Test, cs: seq<Candidate>, content: string, hits: seq<Hit>, h: Hit, c: Candidate)
    requires Scanned(test, cs, content, hits, h.start) && h.start < |content| && Trigger(content[h.start])
    requires c in cs && Longest(test, cs, h.start, c) && h.name == c.name && h.end == h.start + 1 + |c.name|
    ensures Scanned(test, cs, content, hits + [h], h.end)
  {
    assert IsHit(test, cs, content, h);
    assert InOrder(hits + [h]) by {
      forall k | 0 <= k < |hits| ensures hits[k].end <= h.start {
        assert IsHit(test, cs, content, hits[|hits| - 1]);
      }
    }
    forall j | 0 <= j < h.end && j < |content| && Trigger(content[j]) && !NoneFollows(test, cs, j)
      ensures Covered(hits + [h], j)
    {
      if j < h.start {
        var k :| 0 <= k < |hits| && hits[k].start <= j < hits[k].end;
        assert (hits + [h])[k] == hits[k];
      } else {
        assert (hits + [h])[|hits|] == h;
      }
    }
  }

  // ---- Segments

  function Joined(ss: seq<Segment>): string { if ss == [] then "" else Joined(ss[..|ss| - 1]) + ss[|ss| - 1].text }

  /** The texts of the mentions. */
  function Mentions(ss: seq<Segment>): seq<string> {
    if ss == [] then []
    else
      var s := ss[|ss| - 1];
      Mentions(ss[..|ss| - 1]) + if s.mention then [s.text] else []
  }

  function Texts(content: string, hits: seq<Hit>): seq<string>
    requires forall k :: 0 <= k < |hits| ==> hits[k].start <= hits[k].end
  {
    if hits == [] then []
    else
      var h := hits[|hits| - 1];
      Texts(content, hits[..|hits| - 1]) + [Slice(content, h.start, h.end)]
  }

  predicate NoneEmpty(ss: seq<Segment>) { forall k :: 0 <= k < |ss| ==> ss[k].text != "" }

  /** The plain text up to a hit, if there is any, and the hit. */
  method AddHit(content: string, ss: seq<Segment>, cursor: nat, h: Hit) returns (rs: seq<Segment>)
    requires cursor <= h.start < h.end && h.start < |content| && Joined(ss) == content[..cursor] && NoneEmpty(ss)
    ensures Joined(rs) == Slice(content, 0, h.end) && NoneEmpty(rs) && Mentions(rs) == Mentions(ss) + [Slice(content, h.start, h.end)]
  {
    rs := ss;
    if h.start > cursor {
      rs := rs + [Segment(content[cursor..h.start], false)];
      assert content[..cursor] + content[cursor..h.start] == content[..h.start];
    }
    rs := rs + [Segment(Slice(content, h.start, h.end), true)];
    assert content[..h.start] + Slice(content, h.start, h.end) == Slice(content, 0, h.end);
  }

  /** splitMentionSegments: whatever the hits, no character of the text is changed, no segment is empty, and the
      mentions are the hits of the scan, cut at the end of the text. */
  method SplitMentionSegments(fold: char -> string, content: string, names: seq<string>) returns (ss: seq<Segment>, hits: seq<Hit>)
    ensures Joined(ss) == content && NoneEmpty(ss)
    ensures AllHits(StandsAt(fold, content), CandidatesOf(fold, names), content, hits)
    ensures NoneMissed(StandsAt(fold, content), CandidatesOf(fold, names), content, hits, |content|)
    ensures forall k :: 0 <= k < |hits| ==> hits[k].start <= hits[k].end
    ensures Mentions(ss) == Texts(content, hits)
  {
    ss, hits := [], [];
    if content == "" { return; }
    hits := ScanMentionHits(fold, content, names);
    assert forall k :: 0 <= k < |hits| ==> hits[k].start < hits[k].end && hits[k].start < |content| by {
      forall k | 0 <= k < |hits| ensures hits[k].start < hits[k].end && hits[k].start < |content| {
        assert IsHit(StandsAt(fold, content), CandidatesOf(fold, names), content, hits[k]);
      }
    }
    ss := Cut(content, hits);
  }

  method Cut(content: string, hits: seq<Hit>) returns (ss: seq<Segment>)
    requires InOrder(hits) && forall k :: 0 <= k < |hits| ==> hits[k].start < hits[k].end && hits[k].start < |content|
    ensures Joined(ss) == content && NoneEmpty(ss) && Mentions(ss) == Texts(content, hits)
  {
    ss := [];
    var cursor := 0;
    for k := 0 to |hits|
      invariant cursor == if k == 0 then 0 else hits[k - 1].end
      invariant Joined(ss) == Slice(content, 0, cursor) && NoneEmpty(ss) && Mentions(ss) == Texts(content, hits[..k])
    {
      assert k > 0 ==> hits[k - 1].end <= hits[k].start;
      assert hits[..k + 1][..k] == hits[..k];
      ss := AddHit(content, ss, cursor, hits[k]);
      cursor := hits[k].end;
    }
    assert hits[..|hits|] == hits;
    ss := AddRest(content, ss, cursor);
  }

  /** The plain text after the last hit, if there is any. */
  method AddRest(content: string, ss: seq<Segment>, cursor: nat) returns (rs: seq<Segment>)
    requires Joined(ss) == Slice(content, 0, cursor) && NoneEmpty(ss)
    ensures Joined(rs) == content && NoneEmpty(rs) && Mentions(rs) == Mentions(ss)
  {
    rs := ss;
    if cursor < |content| {
      assert content[..cursor] + content[cursor..] == content;
      rs := rs + [Segment(content[cursor..], false)];
    }
  }

  // ---- When the test finds what is meant

  /** What is meant: the name follows the trigger in the text itself, whatever the case. */
  predicate Mentioned(fold: char -> string, content: string, i: nat, name: string) {
    i + 1 + |name| <= |content| && Lower(fold, content[i + 1..i + 1 + |name|]) == Lower(fold, name)
  }

  /** Every character is folded to one. */
  predicate Steady(fold: char -> string, s: string) { forall k :: 0 <= k < |s| ==> |fold(s[k])| == 1 }

  lemma {:induction false} LowerConcat(fold: char -> string, s: string, t: string)
    ensures Lower(fold, s + t) == Lower(fold, s) + Lower(fold, t)
  {
    if s == "" {
      assert s + t == t;
    } else {
      assert (s + t)[1..] == s[1..] + t;
      LowerConcat(fold, s[1..], t);
    }
  }

  /** No character is folded to nothing, so a text is as long as its folding exactly if every character is folded to one. */
  lemma {:induction false} LowerLength(fold: char -> string, s: string)
    requires forall k :: 0 <= k < |s| ==> fold(s[k]) != ""
    ensures |Lower(fold, s)| >= |s| && (|Lower(fold, s)| == |s| <==> Steady(fold, s))
  {
    if s != "" {
      LowerLength(fold, s[1..]);
      assert s == [s[0]] + s[1..];
    }
  }

  /** Where folding adds nothing up to the end of the name, the test is what is meant. */
  lemma FollowsIffMentioned(fold: char -> string, content: string, i: nat, name: string)
    requires i < |content| && Steady(fold, Slice(content, 0, i + 1 + |name|)) && Steady(fold, name)
    ensures Follows(Lower(fold, content), i, Lower(fold, name)) <==> Mentioned(fold, content, i, name)
  {
    var k, s := i + 1 + |name|, Slice(content, 0, i + 1 + |name|);
    assert forall n :: 0 <= n < |s| ==> s[n] == content[n];
    if k <= |content| {
      Parts(content, i + 1, k);
      JustSo(fold, content[..i + 1], content[i + 1..k], content[k..], i, name);
    } else {
      assert content[..i + 1] + content[i + 1..] == content;
      TooLong(fold, content[..i + 1], content[i + 1..], i, name);
    }
  }

  lemma JustSo(fold: char -> string, a: string, b: string, c: string, i: nat, name: string)
    requires |a| == i + 1 && |b| == |name| && Steady(fold, a) && Steady(fold, b) && Steady(fold, name)
    ensures Follows(Lower(fold, a + (b + c)), i, Lower(fold, name)) <==> Lower(fold, b) == Lower(fold, name)
  {
    SteadyLength(fold, a);
    LowerConcat(fold, a, b + c);
    Aligned(Lower(fold, a), Lower(fold, b + c), i, Lower(fold, name));
    BeginsSteady(fold, b, c, name);
  }

  lemma TooLong(fold: char -> string, a: string, rest: string, i: nat, name: string)
    requires |a| == i + 1 && Steady(fold, a) && Steady(fold, rest) && Steady(fold, name) && |name| > |rest|
    ensures !Follows(Lower(fold, a + rest), i, Lower(fold, name))
  {
    LowerConcat(fold, a, rest);
    SteadyLength(fold, a);
    SteadyLength(fold, rest);
    SteadyLength(fold, name);
    Aligned(Lower(fold, a), Lower(fold, rest), i, Lower(fold, name));
  }

  lemma BeginsSteady(fold: char -> string, mine: string, after: string, name: string)
    requires Steady(fold, mine) && Steady(fold, name) && |mine| == |name|
    ensures Lower(fold, name) <= Lower(fold, mine + after) <==> Lower(fold, mine) == Lower(fold, name)
  {
    SteadyLength(fold, mine);
    SteadyLength(fold, name);
    LowerConcat(fold, mine, after);
    SameLength(Lower(fold, name), Lower(fold, mine), Lower(fold, after));
  }

  lemma Aligned(before: string, rest: string, i: nat, name: string)
    requires |before| == i + 1
    ensures Follows(before + rest, i, name) <==> name <= rest
  {
    assert (before + rest)[i + 1..] == rest;
  }

  lemma SameLength(a: string, b: string, c: string)
    requires |a| == |b|
    ensures a <= b + c <==> a == b
  {
    assert (b + c)[..|b|] == b;
  }

  lemma {:induction false} SteadyLength(fold: char -> string, s: string)
    requires Steady(fold, s)
    ensures |Lower(fold, s)| == |s|
  {
    if s != "" { SteadyLength(fold, s[1..]); }
  }

  /** What folding up to the trigger at i adds to it: it ends with the trigger, and stands where the name is looked for. */
  function Overhang(fold: char -> string, content: string, i: nat): string
    requires i < |content| && |Lower(fold, content[..i + 1])| >= i + 1
  {
    Lower(fold, content[..i + 1])[i + 1..]
  }

  /** What the test looks at: the overhang, and then what follows the trigger. */
  lemma FollowsMeans(fold: char -> string, content: string, i: nat, name: string)
    requires i < |content| && forall k :: 0 <= k < |content| ==> fold(content[k]) != ""
    ensures |Lower(fold, content[..i + 1])| >= i + 1
    ensures Follows(Lower(fold, content), i, Lower(fold, name))
            <==> Lower(fold, name) <= Overhang(fold, content, i) + Lower(fold, content[i + 1..])
  {
    LowerLength(fold, content[..i + 1]);
    assert content == content[..i + 1] + content[i + 1..];
    LowerConcat(fold, content[..i + 1], content[i + 1..]);
    assert Lower(fold, content)[i + 1..] == Overhang(fold, content, i) + Lower(fold, content[i + 1..]);
  }

  /** For a name without the trigger this is what follows the trigger, where nothing before it grows; otherwise the
      overhang alone, whatever follows. */
  lemma PlainFollowsMeans(fold: char -> string, content: string, i: nat, name: string)
    requires i < |content| && fold(content[i]) == [content[i]] && content[i] !in Lower(fold, name)
    requires forall k :: 0 <= k < |content| ==> fold(content[k]) != ""
    ensures |Lower(fold, content[..i + 1])| >= i + 1
    ensures Follows(Lower(fold, content), i, Lower(fold, name)) <==>
              if Steady(fold, content[..i]) then Lower(fold, name) <= Lower(fold, content[i + 1..])
              else Lower(fold, name) <= Overhang(fold, content, i)
  {
    LowerBefore(fold, content, i);
    assert content == content[..i + 1] + content[i + 1..];
    LowerConcat(fold, content[..i + 1], content[i + 1..]);
    Pushed(Lower(fold, content[..i + 1]), Lower(fold, content[i + 1..]), Lower(fold, name), i, content[i]);
  }

  /** A mention that is meant is found if nothing before it grows. Otherwise it is found exactly if the name happens to
      begin the overhang; or goes beyond it, which takes a name that holds the trigger, and begins again behind it. */
  lemma FoundIffNothingAdded(fold: char -> string, content: string, i: nat, name: string)
    requires i < |content| && fold(content[i]) == [content[i]] && Mentioned(fold, content, i, name)
    requires forall k :: 0 <= k < |content| ==> fold(content[k]) != ""
    ensures |Lower(fold, content[..i + 1])| >= i + 1
    ensures Follows(Lower(fold, content), i, Lower(fold, name))
            <==> var n, o := Lower(fold, name), Overhang(fold, content, i);
                 Steady(fold, content[..i]) || n <= o || (content[i] in n && o <= n && n[|o|..] <= Lower(fold, content[i + 1..]))
  {
    LowerBefore(fold, content, i);
    var n, o := Lower(fold, name), Overhang(fold, content, i);
    MentionedFollows(fold, content, i, name);
    if content[i] !in n {
      PlainFollowsMeans(fold, content, i, name);
    } else {
      FollowsMeans(fold, content, i, name);
      BeginsEither(n, o, Lower(fold, content[i + 1..]));
    }
  }

  lemma BeginsEither(n: string, o: string, rest: string)
    ensures n <= o + rest <==> n <= o || (o <= n && n[|o|..] <= rest)
  {
    if n <= o + rest && |o| <= |n| {
      assert n[..|o|] == o && n[|o|..] == rest[..|n| - |o|];
    }
  }

  lemma MentionedFollows(fold: char -> string, content: string, i: nat, name: string)
    requires Mentioned(fold, content, i, name)
    ensures Lower(fold, name) <= Lower(fold, content[i + 1..])
  {
    assert content[i + 1..] == content[i + 1..i + 1 + |name|] + content[i + 1 + |name|..];
    LowerConcat(fold, content[i + 1..i + 1 + |name|], content[i + 1 + |name|..]);
  }

  lemma LowerParts(fold: char -> string, a: string, b: string, c: string)
    ensures Lower(fold, a + (b + c)) == Lower(fold, a) + (Lower(fold, b) + Lower(fold, c))
  {
    LowerConcat(fold, a, b + c);
    LowerConcat(fold, b, c);
  }

  lemma Parts(s: string, i: nat, j: nat)
    requires i <= j <= |s|
    ensures s[..i] + (s[i..j] + s[j..]) == s
  {}

  /** Up to a trigger the folding ends with it, and is longer exactly if some character before it is folded to more. */
  lemma LowerBefore(fold: char -> string, content: string, i: nat)
    requires i < |content| && fold(content[i]) == [content[i]] && forall k :: 0 <= k < |content| ==> fold(content[k]) != ""
    ensures var low := Lower(fold, content[..i + 1]);
            |low| >= i + 1 && low[|low| - 1] == content[i] && (|low| == i + 1 <==> Steady(fold, content[..i]))
  {
    assert content[..i + 1] == content[..i] + [content[i]] && [content[i]][1..] == "";
    LowerConcat(fold, content[..i], [content[i]]);
    assert Lower(fold, [content[i]]) == [content[i]];
    LowerLength(fold, content[..i]);
  }

  /** Where an overhang that ends with c comes first, a name without c is found in it or not at all. */
  lemma Pushed(low: string, rest: string, name: string, i: nat, c: char)
    requires i < |low| && low[|low| - 1] == c && c !in name
    ensures Follows(low + rest, i, name) <==> if |low| == i + 1 then name <= rest else name <= low[i + 1..]
  {
    var over := low[i + 1..];
    assert (low + rest)[i + 1..] == over + rest;
    if over == "" {
      assert over + rest == rest;
    } else {
      WithinOverhang(over, rest, name, c);
    }
  }

  lemma WithinOverhang(over: string, rest: string, name: string, c: char)
    requires over != "" && over[|over| - 1] == c && c !in name
    ensures name <= over + rest <==> name <= over
  {
    if |name| >= |over| {
      assert (over + rest)[|over| - 1] == c;
    } else {
      assert (over + rest)[..|name|] == over[..|name|];
    }
  }

  /** A capital I with a dot is an i with a dot in lower case. */
  predicate Dotted(fold: char -> string) { fold('\U{0130}') == "i\U{0307}" && fold('@') == "@" && fold('i') == "i" }

  /** The smallest text with a mention that is missed: a capital I with a dot is two characters in lower case. */
  lemma DottedCapitalHidesMention(fold: char -> string)
    requires Dotted(fold) && fold('a') == "a" && fold('b') == "b"
    ensures Mentioned(fold, "\U{0130}@ab", 1, "ab") && !Follows(Lower(fold, "\U{0130}@ab"), 1, Lower(fold, "ab"))
  {
    var content := "\U{0130}@ab";
    assert content[2..4] == "ab" && content[..1] == "\U{0130}" && content[..2] == "\U{0130}@";
    Two(fold, '\U{0130}', '@');
    Two(fold, 'a', 'b');
    FoundIffNothingAdded(fold, content, 1, "ab");
    assert Lower(fold, "ab")[0] == 'a' && Overhang(fold, content, 1)[0] == '@';
  }

  /** And a text with no mention in which one is found: after three of them, the name i begins the overhang. */
  lemma DottedCapitalsMakeMention(fold: char -> string, hits: seq<Hit>)
    requires Dotted(fold)
    ensures var content := "\U{0130}\U{0130}\U{0130}@";
            && (forall i :: !Mentioned(fold, content, i, "i"))
            && Follows(Lower(fold, content), 3, Lower(fold, "i"))
            && (NoneMissed(StandsAt(fold, content), CandidatesOf(fold, ["i"]), content, hits, |content|) ==> Covered(hits, 3))
  {
    var content := "\U{0130}\U{0130}\U{0130}@";
    assert content == "\U{0130}" + ("\U{0130}" + "\U{0130}@");
    One(fold, '\U{0130}');
    One(fold, 'i');
    Two(fold, '\U{0130}', '@');
    LowerParts(fold, "\U{0130}", "\U{0130}", "\U{0130}@");
    assert Lower(fold, content)[4..][0] == 'i';
    OnlyCandidate(fold);
    assert StandsAt(fold, content)(3, Candidate("i", "i"));
    forall i ensures !Mentioned(fold, content, i, "i") { NotMentioned(fold, content, i); }
  }

  lemma NotMentioned(fold: char -> string, content: string, i: nat)
    requires Dotted(fold) && |content| == 4 && content == "\U{0130}\U{0130}\U{0130}@"
    ensures !Mentioned(fold, content, i, "i")
  {
    if i + 2 <= 4 {
      assert content[i + 1..i + 2] == [content[i + 1]];
      One(fold, content[i + 1]);
      One(fold, 'i');
    }
  }

  lemma OnlyCandidate(fold: char -> string)
    requires Dotted(fold)
    ensures Candidate("i", "i") in CandidatesOf(fold, ["i"])
  {
    One(fold, 'i');
    assert ["i"][..0] == [] && Trim("i") == "i";
  }

  lemma One(fold: char -> string, c: char)
    ensures Lower(fold, [c]) == fold(c)
  {
    assert [c][1..] == "";
    assert fold(c) + "" == fold(c);
  }

  lemma Two(fold: char -> string, c: char, d: char)
    ensures Lower(fold, [c, d]) == fold(c) + fold(d)
  {
    assert [c, d][1..] == [d];
    One(fold, d);
  }

  // ---- Members

  /** The first member with the name, whatever the case. */
  function MemberNamed(fold: char -> string, members: seq<Member>, lower: string): Option<string> {
    if members == [] then None
    else if Lower(fold, Trim(members[0].name)) == lower && lower != "" then Some(members[0].id)
    else MemberNamed(fold, members[1..], lower)
  }

  /** The ids named by the first n hits, each once, in the order of their first mention. */
  function Invited(fold: char -> string, members: seq<Member>, hits: seq<Hit>): (ids: seq<string>)
    ensures forall i, j :: 0 <= i < j < |ids| ==> ids[i] != ids[j]
  {
    if hits == [] then []
    else
      var before := Invited(fold, members, hits[..|hits| - 1]);
      var id := MemberNamed(fold, members, Lower(fold, hits[|hits| - 1].name));
      if id.Some? && id.value != "" && id.value !in before then before + [id.value] else before
  }

  /** The member is the first whose trimmed name is this one, whatever the case. */
  predicate FirstNamed(fold: char -> string, members: seq<Member>, m: int, lower: string) {
    && 0 <= m < |members| && lower != "" && Lower(fold, Trim(members[m].name)) == lower
    && forall j :: 0 <= j < m ==> Lower(fold, Trim(members[j].name)) != lower
  }

  lemma {:induction false} MemberNamedIs(fold: char -> string, members: seq<Member>, lower: string, id: string)
    ensures MemberNamed(fold, members, lower) == Some(id) <==>
              exists m :: FirstNamed(fold, members, m, lower) && members[m].id == id
  {
    if members != [] {
      MemberNamedIs(fold, members[1..], lower, id);
      if lower != "" && Lower(fold, Trim(members[0].name)) == lower {
        assert FirstNamed(fold, members, 0, lower);
      } else {
        if m :| FirstNamed(fold, members, m, lower) && members[m].id == id { assert FirstNamed(fold, members[1..], m - 1, lower); }
        if m :| FirstNamed(fold, members[1..], m, lower) && members[1..][m].id == id {
          assert FirstNamed(fold, members, m + 1, lower);
        }
      }
    }
  }

  /** Hit k names the member with this id. */
  ghost predicate Names(fold: char -> string, members: seq<Member>, hit: Hit, id: string) {
    id != "" && exists m :: FirstNamed(fold, members, m, Lower(fold, hit.name)) && members[m].id == id
  }

  lemma NamesIs(fold: char -> string, members: seq<Member>, hit: Hit, id: string)
    ensures Names(fold, members, hit, id) <==> id != "" && MemberNamed(fold, members, Lower(fold, hit.name)) == Some(id)
  {
    MemberNamedIs(fold, members, Lower(fold, hit.name), id);
  }

  /** A member is invited exactly if some hit names it. */
  lemma {:induction false} MentionedIffNamed(fold: char -> string, members: seq<Member>, hits: seq<Hit>, id: string)
    ensures id in Invited(fold, members, hits) <==> exists k :: 0 <= k < |hits| && Names(fold, members, hits[k], id)
  {
    hide Names, MemberNamed, Lower;
    if hits != [] {
      var n := |hits| - 1;
      MentionedIffNamed(fold, members, hits[..n], id);
      NamesIs(fold, members, hits[n], id);
      if k :| 0 <= k < n && Names(fold, members, hits[..n][k], id) { assert hits[k] == hits[..n][k]; }
      if k :| 0 <= k < |hits| && Names(fold, members, hits[k], id) {
        if k < n { assert hits[..n][k] == hits[k]; }
      }
    }
  }

  /** Those whom the first hits name come first. */
  lemma {:induction false} InvitedInOrder(fold: char -> string, members: seq<Member>, hits: seq<Hit>, k: nat)
    requires k <= |hits|
    ensures Invited(fold, members, hits[..k]) <= Invited(fold, members, hits)
    decreases |hits|
  {
    if k < |hits| {
      assert hits[..|hits| - 1][..k] == hits[..k];
      InvitedInOrder(fold, members, hits[..|hits| - 1], k);
    } else {
      assert hits[..k] == hits;
    }
  }

  /** The keys of the name table: the lower-case names, each once. */
  function Keys(fold: char -> string, members: seq<Member>): seq<string> {
    if members == [] then []
    else
      var n := |members| - 1;
      var before, key := Keys(fold, members[..n]), Lower(fold, Trim(members[n].name));
      if key != "" && key !in before then before + [key] else before
  }

  /** Every member with a name has a key, and nobody else. */
  lemma {:induction false} KeysAre(fold: char -> string, members: seq<Member>, key: string)
    ensures key in Keys(fold, members) <==> key != "" && exists m :: 0 <= m < |members| && Lower(fold, Trim(members[m].name)) == key
  {
    if members != [] {
      var n := |members| - 1;
      KeysAre(fold, members[..n], key);
      assert forall m :: 0 <= m < n ==> members[..n][m] == members[m];
    }
  }

  /** extractMentionedMemberIds */
  method ExtractMentionedMemberIds(fold: char -> string, content: string, members: seq<Member>) returns (ids: seq<string>, hits: seq<Hit>)
    ensures AllHits(StandsAt(fold, content), CandidatesOf(fold, Keys(fold, members)), content, hits)
    ensures NoneMissed(StandsAt(fold, content), CandidatesOf(fold, Keys(fold, members)), content, hits, |content|)
    ensures ids == Invited(fold, members, hits)
  {
    hits := ScanMentionHits(fold, content, Keys(fold, members));
    ids := [];
    for k := 0 to |hits|
      invariant ids == Invited(fold, members, hits[..k])
    {
      assert hits[..k + 1][..k] == hits[..k];
      var id := MemberNamed(fold, members, Lower(fold, hits[k].name));
      if id.Some? && id.value != "" && id.value !in ids { ids := ids + [id.value]; }
    }
    assert hits[..|hits|] == hits;
  }
}
