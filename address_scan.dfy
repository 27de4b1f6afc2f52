/**
 * The address scan of get_traceroute: `re.findall` with the pattern
 * `\d{1,3}\.\d{1,3}\.\d{1,3}\.\d{1,3}` over the trace tool's output.
 *
 * MatchGroups is the backtracking engine's attempt at one start position and
 * ScanFrom is findall's left-to-right loop over start positions. Both are
 * related to an independent, declarative reading of the pattern:
 * IsDottedQuad splits a candidate on '.' and asks for four groups of one to
 * three ASCII digits, and IsFindAll describes findall's result as the
 * leftmost, non-overlapping, longest matches.
 */
module AddressScan {
  import opened Options

  predicate IsDigit(c: char) { '0' <= c <= '9' }

  // ---------------------------------------------------------------------
  // The declarative reading of the pattern
  // ---------------------------------------------------------------------

  /** The pieces of w between dots; a string with k dots has k + 1 pieces. */
  function SplitDots(w: string): (gs: seq<string>)
    ensures |gs| >= 1
    decreases |w|
  {
    if w == [] then [[]]
    else if w[0] == '.' then [[]] + SplitDots(w[1..])
    else
      var rest := SplitDots(w[1..]);
      [[w[0]] + rest[0]] + rest[1..]
  }

  /** One group of the pattern, `\d{1,3}`. */
  predicate IsOctetText(g: string) {
    1 <= |g| <= 3 && forall i :: 0 <= i < |g| ==> IsDigit(g[i])
  }

  /** w is n dot-separated groups of one to three ASCII digits. */
  predicate IsGroups(w: string, n: nat) {
    var gs := SplitDots(w);
    |gs| == n && forall i :: 0 <= i < n ==> IsOctetText(gs[i])
  }

  /** w is matched, as a whole, by the dotted-quad pattern. */
  predicate IsDottedQuad(w: string) { IsGroups(w, 4) }

  /** s[q..e] is a dotted quad. */
  ghost predicate AddressAt(s: string, q: nat, e: nat) {
    q <= e <= |s| && IsDottedQuad(s[q..e])
  }

  /** No dotted quad starts at position q of s. */
  ghost predicate NoAddressAt(s: string, q: nat) {
    forall e: nat :: !AddressAt(s, q, e)
  }

  /** s[q..e] is the longest dotted quad that starts at q. */
  ghost predicate LongestAddressAt(s: string, q: nat, e: nat) {
    AddressAt(s, q, e) && forall e': nat :: AddressAt(s, q, e') ==> e' <= e
  }

  /** A piece of the text, from start (inclusive) to end (exclusive). */
  datatype Span = Span(start: nat, end: nat)

  /**
   * What findall returns when it scans s from position p: the leftmost
   * dotted quad (longest at its start, which is what the greedy last group
   * picks), then the same again from where that match ends; no dotted quad
   * starts at any position the scan steps over.
   */
  ghost predicate IsFindAll(s: string, p: nat, spans: seq<Span>)
    requires p <= |s|
    decreases |spans|
  {
    if spans == [] then
      forall q :: p <= q <= |s| ==> NoAddressAt(s, q)
    else
      p <= spans[0].start <= |s| &&
      (forall q :: p <= q < spans[0].start ==> NoAddressAt(s, q)) &&
      LongestAddressAt(s, spans[0].start, spans[0].end) &&
      IsFindAll(s, spans[0].end, spans[1..])
  }

  // ---------------------------------------------------------------------
  // The regex engine
  // ---------------------------------------------------------------------

  /** Length of the run of digits of s that starts at p. */
  function DigitRun(s: string, p: nat): (n: nat)
    requires p <= |s|
    ensures p + n <= |s|
    decreases |s| - p
  {
    if p < |s| && IsDigit(s[p]) then 1 + DigitRun(s, p + 1) else 0
  }

  /** The run is all digits, and it is maximal: a non-digit or the end of s follows it. */
  lemma {:induction false} DigitRunFacts(s: string, p: nat)
    requires p <= |s|
    ensures forall i :: p <= i < p + DigitRun(s, p) ==> IsDigit(s[i])
    ensures p + DigitRun(s, p) == |s| || !IsDigit(s[p + DigitRun(s, p)])
    decreases |s| - p
  {
    if p < |s| && IsDigit(s[p]) {
      DigitRunFacts(s, p + 1);
    }
  }

  /**
   * `\d{1,3}\.` at p, giving the position after the dot. Backtracking to
   * fewer digits can never help: the character after them is a digit, not a
   * dot, so the group succeeds only on a whole run of one to three digits.
   */
  function DottedGroupEnd(s: string, p: nat): Option<nat>
    requires p <= |s|
  {
    var n := DigitRun(s, p);
    if 1 <= n <= 3 && p + n < |s| && s[p + n] == '.' then Some(p + n + 1) else None
  }

  /** The final `\d{1,3}` at p: greedily up to three digits. */
  function LastGroupEnd(s: string, p: nat): Option<nat>
    requires p <= |s|
  {
    var n := DigitRun(s, p);
    if n == 0 then None else Some(p + Min(n, 3))
  }

  /** The engine's attempt at n remaining groups from p: the end of the match, if any. */
  function MatchGroups(s: string, p: nat, n: nat): (r: Option<nat>)
    requires p <= |s| && n >= 1
    ensures r.Some? ==> p < r.value <= |s|
    decreases n
  {
    if n == 1 then LastGroupEnd(s, p)
    else
      match DottedGroupEnd(s, p)
      case None => None
      case Some(q) => MatchGroups(s, q, n - 1)
  }

  /** The whole pattern tried at start position p. */
  function MatchAt(s: string, p: nat): (r: Option<nat>)
    requires p <= |s|
    ensures r.Some? ==> p < r.value <= |s|
  {
    MatchGroups(s, p, 4)
  }

  /** findall: try each start position from p on; resume right after each match. */
  function ScanFrom(s: string, p: nat): seq<Span>
    requires p <= |s|
    decreases |s| - p
  {
    if p == |s| then []
    else
      match MatchAt(s, p)
      case Some(e) => [Span(p, e)] + ScanFrom(s, e)
      case None => ScanFrom(s, p + 1)
  }

  /** Every span lies in s[p..] and they follow each other without overlap. */
  ghost predicate Ordered(s: string, p: nat, spans: seq<Span>) {
    (forall i :: 0 <= i < |spans| ==> p <= spans[i].start < spans[i].end <= |s|) &&
    (forall i, j :: 0 <= i < j < |spans| ==> spans[i].end <= spans[j].start)
  }

  /** The matched texts, in order. */
  function Texts(s: string, spans: seq<Span>): (ts: seq<string>)
    requires forall i :: 0 <= i < |spans| ==> spans[i].start <= spans[i].end <= |s|
    ensures |ts| == |spans|
    ensures forall i :: 0 <= i < |spans| ==> ts[i] == s[spans[i].start..spans[i].end]
  {
    if spans == [] then [] else [s[spans[0].start..spans[0].end]] + Texts(s, spans[1..])
  }

  lemma {:induction false} TextsSnoc(s: string, spans: seq<Span>, sp: Span)
    requires forall i :: 0 <= i < |spans| ==> spans[i].start <= spans[i].end <= |s|
    requires sp.start <= sp.end <= |s|
    ensures Texts(s, spans + [sp]) == Texts(s, spans) + [s[sp.start..sp.end]]
    decreases |spans|
  {
    if spans != [] {
      assert (spans + [sp])[1..] == spans[1..] + [sp];
      TextsSnoc(s, spans[1..], sp);
    }
  }

  /** Spans that all end by pos. */
  ghost predicate EndBy(spans: seq<Span>, pos: nat) {
    forall i :: 0 <= i < |spans| ==> spans[i].start <= spans[i].end <= pos
  }

  /** Spans that end by pos, followed by one that starts at or after pos, end by its end. */
  lemma SpansWithinSnoc(spans: seq<Span>, pos: nat, sp: Span)
    requires EndBy(spans, pos)
    requires pos <= sp.start <= sp.end
    ensures EndBy(spans + [sp], sp.end)
  {
    forall i | 0 <= i < |spans| + 1
      ensures (spans + [sp])[i].start <= (spans + [sp])[i].end <= sp.end
    {
      if i < |spans| {
        assert (spans + [sp])[i] == spans[i];
      }
    }
  }

  // ---------------------------------------------------------------------
  // Splitting on dots
  // ---------------------------------------------------------------------

  lemma {:induction false} SplitDotsCons(g: string, rest: string)
    requires '.' !in g
    ensures SplitDots(g + ['.'] + rest) == [g] + SplitDots(rest)
    decreases |g|
  {
    var w := g + ['.'] + rest;
    if g == [] {
      assert w[1..] == rest;
    } else {
      assert w[1..] == g[1..] + ['.'] + rest;
      SplitDotsCons(g[1..], rest);
      assert [w[0]] + g[1..] == g;
    }
  }

  lemma {:induction false} SplitDotsNoDot(g: string)
    requires '.' !in g
    ensures SplitDots(g) == [g]
    decreases |g|
  {
    if g != [] {
      SplitDotsNoDot(g[1..]);
      assert [g[0]] + g[1..] == g;
    }
  }

  /** A string with a single piece has no dot: the piece is the whole string. */
  lemma {:induction false} SplitDotsSingle(w: string)
    requires |SplitDots(w)| == 1
    ensures SplitDots(w)[0] == w
    decreases |w|
  {
    if w != [] && w[0] != '.' {
      SplitDotsSingle(w[1..]);
      assert [w[0]] + w[1..] == w;
    }
  }

  /** With two pieces or more, the first piece is followed by a dot and the rest splits into the remaining pieces. */
  lemma {:induction false} SplitDotsHead(w: string)
    requires |SplitDots(w)| >= 2
    ensures var g := SplitDots(w)[0];
      |g| < |w| && w[..|g|] == g && w[|g|] == '.' &&
      SplitDots(w[|g| + 1..]) == SplitDots(w)[1..]
    decreases |w|
  {
    if w[0] == '.' {
    } else {
      var v := w[1..];
      SplitDotsHead(v);
      var g' := SplitDots(v)[0];
      assert w[|g'| + 2..] == v[|g'| + 1..];
      assert w[..|g'| + 1] == [w[0]] + v[..|g'|];
    }
  }

  // ---------------------------------------------------------------------
  // The engine agrees with the declarative reading
  // ---------------------------------------------------------------------

  lemma DigitRunCovers(s: string, p: nat, k: nat)
    requires p + k <= |s|
    requires forall i :: p <= i < p + k ==> IsDigit(s[i])
    ensures DigitRun(s, p) >= k
  {
    DigitRunFacts(s, p);
    if DigitRun(s, p) < k {
      assert false;
    }
  }

  /** The final group the engine takes is one group of one to three digits. */
  lemma LastGroupSound(s: string, p: nat)
    requires p <= |s| && LastGroupEnd(s, p).Some?
    ensures IsGroups(s[p..LastGroupEnd(s, p).value], 1)
  {
    var w := s[p..LastGroupEnd(s, p).value];
    DigitRunFacts(s, p);
    assert forall i :: 0 <= i < |w| ==> IsDigit(w[i]);
    SplitDotsNoDot(w);
  }

  /** A dotted group the engine takes, put in front of n groups, gives n + 1 groups. */
  lemma DottedGroupSound(s: string, p: nat, e: nat, n: nat)
    requires p <= |s| && DottedGroupEnd(s, p).Some?
    requires DottedGroupEnd(s, p).value <= e <= |s|
    requires IsGroups(s[DottedGroupEnd(s, p).value..e], n)
    ensures IsGroups(s[p..e], n + 1)
  {
    var q := DottedGroupEnd(s, p).value;
    var g := s[p..q - 1];
    DigitRunFacts(s, p);
    assert forall i :: 0 <= i < |g| ==> IsDigit(g[i]);
    assert s[p..e] == g + ['.'] + s[q..e];
    SplitDotsCons(g, s[q..e]);
  }

  /** What the engine matches is n dot-separated groups. */
  lemma {:induction false} MatchGroupsSound(s: string, p: nat, n: nat)
    requires p <= |s| && n >= 1
    requires MatchGroups(s, p, n).Some?
    ensures IsGroups(s[p..MatchGroups(s, p, n).value], n)
    decreases n
  {
    if n == 1 {
      LastGroupSound(s, p);
    } else {
      var q := DottedGroupEnd(s, p).value;
      MatchGroupsSound(s, q, n - 1);
      DottedGroupSound(s, p, MatchGroups(s, p, n).value, n - 1);
    }
  }

  /** One group starting at p: the engine's final group takes it, or more. */
  lemma LastGroupComplete(s: string, p: nat, e: nat)
    requires p <= e <= |s|
    requires IsGroups(s[p..e], 1)
    ensures LastGroupEnd(s, p).Some? && e <= LastGroupEnd(s, p).value
  {
    SplitDotsSingle(s[p..e]);
    DigitRunCovers(s, p, e - p);
  }

  /** n >= 2 groups: the first is a group followed by a dot, and n - 1 groups follow. */
  lemma GroupsHead(w: string, n: nat)
    requires n >= 2 && IsGroups(w, n)
    ensures var g := SplitDots(w)[0];
      IsOctetText(g) && |g| < |w| && w[..|g|] == g && w[|g|] == '.' &&
      IsGroups(w[|g| + 1..], n - 1)
  {
    SplitDotsHead(w);
    var rest := SplitDots(w)[1..];
    forall i | 0 <= i < n - 1 ensures IsOctetText(rest[i]) {
      assert rest[i] == SplitDots(w)[i + 1];
    }
  }

  /** A whole run of one to three digits followed by a dot is what the dotted group takes. */
  lemma DottedGroupAt(s: string, p: nat, k: nat)
    requires 1 <= k <= 3 && p + k < |s|
    requires forall i :: p <= i < p + k ==> IsDigit(s[i])
    requires s[p + k] == '.'
    ensures DottedGroupEnd(s, p) == Some(p + k + 1)
  {
    DigitRunCovers(s, p, k);
    DigitRunFacts(s, p);
  }

  /** n >= 2 groups starting at p: the engine's dotted group takes exactly the first and its dot. */
  lemma DottedGroupComplete(s: string, p: nat, e: nat, n: nat)
    requires p <= e <= |s| && n >= 2
    requires IsGroups(s[p..e], n)
    ensures DottedGroupEnd(s, p).Some? && DottedGroupEnd(s, p).value <= e
    ensures IsGroups(s[DottedGroupEnd(s, p).value..e], n - 1)
  {
    var w := s[p..e];
    GroupsHead(w, n);
    var k := |SplitDots(w)[0]|;
    forall i | p <= i < p + k ensures IsDigit(s[i]) {
      assert s[i] == w[..k][i - p];
    }
    assert s[p + k] == w[k];
    DottedGroupAt(s, p, k);
    assert w[k + 1..] == s[p + k + 1..e];
  }

  /** Whenever n groups start at p, the engine finds a match there, at least as long. */
  lemma {:induction false} MatchGroupsComplete(s: string, p: nat, n: nat, e: nat)
    requires p <= e <= |s| && n >= 1
    requires IsGroups(s[p..e], n)
    ensures MatchGroups(s, p, n).Some? && e <= MatchGroups(s, p, n).value
    decreases n
  {
    if n == 1 {
      LastGroupComplete(s, p, e);
    } else {
      DottedGroupComplete(s, p, e, n);
      MatchGroupsComplete(s, DottedGroupEnd(s, p).value, n - 1, e);
    }
  }

  /** A dotted quad is never empty. */
  lemma EmptyIsNotDottedQuad()
    ensures !IsDottedQuad([])
  {
    assert SplitDots([]) == [[]];
  }

  /** MatchAt finds exactly the longest dotted quad at p, and nothing when none starts there. */
  lemma MatchAtExact(s: string, p: nat)
    requires p <= |s|
    ensures MatchAt(s, p).Some? ==> LongestAddressAt(s, p, MatchAt(s, p).value)
    ensures MatchAt(s, p).None? ==> NoAddressAt(s, p)
  {
    if MatchAt(s, p).Some? {
      MatchGroupsSound(s, p, 4);
    }
    forall e': nat | AddressAt(s, p, e')
      ensures MatchAt(s, p).Some? && e' <= MatchAt(s, p).value
    {
      MatchGroupsComplete(s, p, 4, e');
    }
  }

  // ---------------------------------------------------------------------
  // findall
  // ---------------------------------------------------------------------

  /** The scan satisfies the description of findall. */
  lemma {:induction false} ScanFromSatisfies(s: string, p: nat)
    requires p <= |s|
    ensures IsFindAll(s, p, ScanFrom(s, p))
    decreases |s| - p
  {
    if p == |s| {
      NothingAtEnd(s);
    } else if MatchAt(s, p).Some? {
      ScanFromSatisfies(s, MatchAt(s, p).value);
      TakeStepSatisfies(s, p);
    } else {
      ScanFromSatisfies(s, p + 1);
      SkipStepSatisfies(s, p);
    }
  }

  /** At the end of the text findall has nothing left to find. */
  lemma NothingAtEnd(s: string)
    ensures IsFindAll(s, |s|, [])
  {
    EmptyIsNotDottedQuad();
    forall e: nat | |s| <= e <= |s| ensures !AddressAt(s, |s|, e) {
      assert s[|s|..e] == [];
    }
  }

  /** A step where the scan takes the longest dotted quad at p. */
  lemma TakeStepSatisfies(s: string, p: nat)
    requires p < |s| && MatchAt(s, p).Some?
    requires IsFindAll(s, MatchAt(s, p).value, ScanFrom(s, MatchAt(s, p).value))
    ensures IsFindAll(s, p, ScanFrom(s, p))
  {
    var e := MatchAt(s, p).value;
    MatchAtExact(s, p);
    ScanFromMatched(s, p);
    FindAllTake(s, p, e, ScanFrom(s, e));
  }

  /** A step where the scan steps over p, where no dotted quad starts. */
  lemma SkipStepSatisfies(s: string, p: nat)
    requires p < |s| && MatchAt(s, p).None?
    requires IsFindAll(s, p + 1, ScanFrom(s, p + 1))
    ensures IsFindAll(s, p, ScanFrom(s, p))
  {
    MatchAtExact(s, p);
    ScanFromStepped(s, p);
    FindAllSkip(s, p, ScanFrom(s, p + 1));
  }

  /** A position where no dotted quad starts can be stepped over. */
  lemma FindAllSkip(s: string, p: nat, spans: seq<Span>)
    requires p < |s| && NoAddressAt(s, p)
    requires IsFindAll(s, p + 1, spans)
    ensures IsFindAll(s, p, spans)
  {
  }

  /** The longest dotted quad at p, followed by findall's result after it. */
  lemma FindAllTake(s: string, p: nat, e: nat, rest: seq<Span>)
    requires p <= |s| && LongestAddressAt(s, p, e)
    requires IsFindAll(s, e, rest)
    ensures IsFindAll(s, p, [Span(p, e)] + rest)
  {
    assert ([Span(p, e)] + rest)[1..] == rest;
  }

  /** A dotted quad found at q rules out "no dotted quad starts at q", and it is not empty. */
  lemma LongestAddressFacts(s: string, q: nat)
    requires q <= |s|
    ensures forall e: nat :: LongestAddressAt(s, q, e) ==> q < e && !NoAddressAt(s, q)
  {
    EmptyIsNotDottedQuad();
  }

  /** Past the end of the text the description admits no span. */
  lemma FindAllAtEnd(s: string, spans: seq<Span>)
    requires IsFindAll(s, |s|, spans)
    ensures spans == []
  {
    if spans != [] {
      LongestAddressFacts(s, spans[0].start);
      assert false;
    }
  }

  /** The description's first step agrees with the engine's attempt at p. */
  lemma FindAllFirst(s: string, p: nat, spans: seq<Span>)
    requires p < |s|
    requires IsFindAll(s, p, spans)
    ensures MatchAt(s, p).Some? ==> spans != [] && spans[0] == Span(p, MatchAt(s, p).value)
    ensures MatchAt(s, p).None? ==> IsFindAll(s, p + 1, spans)
  {
    LongestAddressFacts(s, p);
    if spans != [] {
      LongestAddressFacts(s, spans[0].start);
    }
    MatchAtExact(s, p);
    if MatchAt(s, p).Some? {
      if spans == [] || spans[0].start != p {
        assert false;
      }
    } else {
      if spans != [] && spans[0].start == p {
        assert false;
      }
    }
  }

  lemma FindAllTail(s: string, p: nat, spans: seq<Span>)
    requires p <= |s|
    requires IsFindAll(s, p, spans) && spans != []
    ensures spans[0].end <= |s| && IsFindAll(s, spans[0].end, spans[1..])
  {
  }

  /** Only one sequence of spans satisfies the description: the scan's. */
  lemma {:induction false} FindAllUnique(s: string, p: nat, spans: seq<Span>)
    requires p <= |s|
    requires IsFindAll(s, p, spans)
    ensures spans == ScanFrom(s, p)
    decreases |s| - p, 1
  {
    if p == |s| {
      FindAllAtEnd(s, spans);
    } else if MatchAt(s, p).Some? {
      FindAllUniqueTaken(s, p, spans);
    } else {
      FindAllUniqueSkipped(s, p, spans);
    }
  }

  lemma {:induction false} FindAllUniqueTaken(s: string, p: nat, spans: seq<Span>)
    requires p < |s| && MatchAt(s, p).Some?
    requires IsFindAll(s, p, spans)
    ensures spans == ScanFrom(s, p)
    decreases |s| - p, 0
  {
    FindAllFirst(s, p, spans);
    FindAllTail(s, p, spans);
    FindAllUnique(s, MatchAt(s, p).value, spans[1..]);
    ScanFromTaken(s, p, spans);
  }

  lemma {:induction false} FindAllUniqueSkipped(s: string, p: nat, spans: seq<Span>)
    requires p < |s| && MatchAt(s, p).None?
    requires IsFindAll(s, p, spans)
    ensures spans == ScanFrom(s, p)
    decreases |s| - p, 0
  {
    FindAllFirst(s, p, spans);
    FindAllUnique(s, p + 1, spans);
  }

  /** The scan's step at a match, read backwards. */
  lemma ScanFromTaken(s: string, p: nat, spans: seq<Span>)
    requires p < |s| && MatchAt(s, p).Some?
    requires spans != [] && spans[0] == Span(p, MatchAt(s, p).value)
    requires spans[1..] == ScanFrom(s, MatchAt(s, p).value)
    ensures spans == ScanFrom(s, p)
  {
    ScanFromMatched(s, p);
    assert spans == [spans[0]] + spans[1..];
  }

  /** The scan returns exactly findall's result, and only it. */
  lemma ScanFromIsFindAll(s: string, p: nat, spans: seq<Span>)
    requires p <= |s|
    ensures IsFindAll(s, p, spans) <==> spans == ScanFrom(s, p)
  {
    ScanFromSatisfies(s, p);
    if IsFindAll(s, p, spans) {
      FindAllUnique(s, p, spans);
    }
  }

  /** Putting a span in front of ordered spans that start after it keeps them ordered. */
  lemma OrderedCons(s: string, p: nat, sp: Span, rest: seq<Span>)
    requires p <= sp.start < sp.end <= |s|
    requires Ordered(s, sp.end, rest)
    ensures Ordered(s, p, [sp] + rest)
  {
    var all := [sp] + rest;
    forall i | 0 <= i < |all| ensures p <= all[i].start < all[i].end <= |s| {
      if i > 0 {
        assert all[i] == rest[i - 1];
      }
    }
    forall i, j | 0 <= i < j < |all| ensures all[i].end <= all[j].start {
      assert all[j] == rest[j - 1];
      if i > 0 {
        assert all[i] == rest[i - 1];
      }
    }
  }

  /** The matches lie in s[p..], left to right, without overlap. */
  lemma {:induction false} ScanFromOrdered(s: string, p: nat)
    requires p <= |s|
    ensures Ordered(s, p, ScanFrom(s, p))
    decreases |s| - p
  {
    if p == |s| {
    } else if MatchAt(s, p).Some? {
      ScanFromOrdered(s, MatchAt(s, p).value);
      TakeStepOrdered(s, p);
    } else {
      ScanFromOrdered(s, p + 1);
      SkipStepOrdered(s, p);
    }
  }

  /** A step where the scan takes a match at p keeps the spans ordered. */
  lemma TakeStepOrdered(s: string, p: nat)
    requires p < |s| && MatchAt(s, p).Some?
    requires Ordered(s, MatchAt(s, p).value, ScanFrom(s, MatchAt(s, p).value))
    ensures Ordered(s, p, ScanFrom(s, p))
  {
    var e := MatchAt(s, p).value;
    ScanFromMatched(s, p);
    OrderedCons(s, p, Span(p, e), ScanFrom(s, e));
  }

  /** A step where the scan steps over p keeps the spans ordered. */
  lemma SkipStepOrdered(s: string, p: nat)
    requires p < |s| && MatchAt(s, p).None?
    requires Ordered(s, p + 1, ScanFrom(s, p + 1))
    ensures Ordered(s, p, ScanFrom(s, p))
  {
    ScanFromStepped(s, p);
  }

  /** Every match found is a dotted quad. */
  lemma {:induction false} ScanFromDottedQuads(s: string, p: nat)
    requires p <= |s|
    ensures forall i :: 0 <= i < |ScanFrom(s, p)| ==>
      var sp := ScanFrom(s, p)[i];
      sp.start <= sp.end <= |s| && IsDottedQuad(s[sp.start..sp.end])
    decreases |s| - p
  {
    if p < |s| {
      MatchAtExact(s, p);
      match MatchAt(s, p)
      case Some(e) =>
        ScanFromMatched(s, p);
        ScanFromDottedQuads(s, e);
      case None =>
        ScanFromStepped(s, p);
        ScanFromDottedQuads(s, p + 1);
    }
  }

  /** Where a match starts, the scan records it and resumes after it. */
  lemma ScanFromMatched(s: string, p: nat)
    requires p < |s| && MatchAt(s, p).Some?
    ensures ScanFrom(s, p) == [Span(p, MatchAt(s, p).value)] + ScanFrom(s, MatchAt(s, p).value)
  {
  }

  /** Where no match starts, the scan moves on by one character. */
  lemma ScanFromStepped(s: string, p: nat)
    requires p < |s| && MatchAt(s, p).None?
    ensures ScanFrom(s, p) == ScanFrom(s, p + 1)
  {
  }

  /** The spans of findall over the whole text. */
  function Scan(s: string): seq<Span> {
    ScanFrom(s, 0)
  }

  /** The spans the scan returns lie inside the text. */
  lemma ScanInRange(s: string)
    ensures forall i :: 0 <= i < |Scan(s)| ==> Scan(s)[i].start <= Scan(s)[i].end <= |s|
  {
    ScanFromOrdered(s, 0);
  }

  /** `re.findall(ip_pattern, output)`: the matched strings, in order. */
  function FindAll(s: string): seq<string> {
    ScanInRange(s);
    Texts(s, Scan(s))
  }

  /**
   * findall's result over a whole text is the scan's, and nothing else; its
   * matches follow each other without overlap.
   */
  lemma ScanIsFindAll(s: string, spans: seq<Span>)
    ensures IsFindAll(s, 0, spans) <==> spans == Scan(s)
    ensures Ordered(s, 0, Scan(s))
  {
    ScanFromIsFindAll(s, 0, spans);
    ScanFromOrdered(s, 0);
  }

  /** Each string findall returns is a dotted quad, taken from the text where its span says. */
  lemma FindAllDottedQuads(s: string)
    ensures |FindAll(s)| == |Scan(s)|
    ensures forall i :: 0 <= i < |Scan(s)| ==> Scan(s)[i].start <= Scan(s)[i].end <= |s|
    ensures forall i :: 0 <= i < |FindAll(s)| ==>
      FindAll(s)[i] == s[Scan(s)[i].start..Scan(s)[i].end] && IsDottedQuad(FindAll(s)[i])
  {
    ScanFromDottedQuads(s, 0);
  }

  /** Moving the head of the rest onto the end of what was found keeps the whole. */
  lemma AppendStep(found: seq<Span>, sp: Span, rest: seq<Span>, after: seq<Span>, all: seq<Span>)
    requires found + rest == all && rest == [sp] + after
    ensures (found + [sp]) + after == all
  {
  }

  /**
   * The findall loop: try each start position, and on a match record its
   * text and resume right after it.
   */
  method FindAddresses(text: string) returns (ips: seq<string>)
    ensures ips == FindAll(text)
  {
    ips := [];
    var pos := 0;
    ghost var found: seq<Span> := [];
    while pos < |text|
      invariant pos <= |text|
      invariant found + ScanFrom(text, pos) == ScanFrom(text, 0)
      invariant EndBy(found, pos)
      invariant ips == Texts(text, found)
      decreases |text| - pos
    {
      match MatchAt(text, pos)
      case Some(e) =>
        ScanFromMatched(text, pos);
        AppendStep(found, Span(pos, e), ScanFrom(text, pos), ScanFrom(text, e), ScanFrom(text, 0));
        TextsSnoc(text, found, Span(pos, e));
        SpansWithinSnoc(found, pos, Span(pos, e));
        ips := ips + [text[pos..e]];
        found := found + [Span(pos, e)];
        pos := e;
      case None =>
        ScanFromStepped(text, pos);
        pos := pos + 1;
    }
    assert found == Scan(text);
  }

  // ---------------------------------------------------------------------
  // Two texts where the digit runs are longer than a group allows
  // ---------------------------------------------------------------------

  /** The engine's attempts on a text that opens with four digits. */
  lemma LeadingRunAttempts(s: string)
    requires s == "1234.5.6.7"
    ensures MatchAt(s, 0) == None
    ensures MatchAt(s, 1) == Some(10)
  {
    assert DigitRun(s, 4) == 0;
    assert DigitRun(s, 3) == 1;
    assert DigitRun(s, 2) == 2;
    assert DigitRun(s, 1) == 3;
    assert DigitRun(s, 0) == 4;
    assert DigitRun(s, 5) == 1;
    assert DigitRun(s, 7) == 1;
    assert DigitRun(s, 9) == 1;
    assert MatchGroups(s, 9, 1) == Some(10);
    assert MatchGroups(s, 7, 2) == Some(10);
    assert MatchGroups(s, 5, 3) == Some(10);
  }

  /** A four-digit run cannot start a match, so the match starts one digit later. */
  lemma FourDigitLeadingRun(s: string, t: string)
    requires t == "234.5.6.7" && s == "1" + t
    ensures FindAll(s) == [t]
  {
    LeadingRunAttempts(s);
    ScanFromStepped(s, 0);
    ScanFromMatched(s, 1);
    assert ScanFrom(s, 10) == [];
    assert s[1..10] == t;
  }

  /** The engine's attempts on a text that closes with four digits. */
  lemma TrailingRunAttempts(s: string)
    requires s == "1.2.3.4567"
    ensures MatchAt(s, 0) == Some(9)
    ensures MatchAt(s, 9) == None
  {
    assert DigitRun(s, 10) == 0;
    assert DigitRun(s, 9) == 1;
    assert DigitRun(s, 8) == 2;
    assert DigitRun(s, 7) == 3;
    assert DigitRun(s, 6) == 4;
    assert DigitRun(s, 4) == 1;
    assert DigitRun(s, 2) == 1;
    assert DigitRun(s, 0) == 1;
    assert MatchGroups(s, 6, 1) == Some(9);
    assert MatchGroups(s, 4, 2) == Some(9);
    assert MatchGroups(s, 2, 3) == Some(9);
  }

  /** The last group stops after three digits; the leftover digit starts no match. */
  lemma FourDigitTrailingRun(s: string, t: string)
    requires t == "1.2.3.456" && s == t + "7"
    ensures FindAll(s) == [t]
  {
    TrailingRunAttempts(s);
    ScanFromMatched(s, 0);
    ScanFromStepped(s, 9);
    assert ScanFrom(s, 10) == [];
    assert s[0..9] == t;
  }
}
