/** Prompt budgets (jev_service/prompt_budget.py): truncating a text to a token budget by binary search
  on its length, and shrinking a state until its prompt fits. The tokenizer is any count function, and
  head(m), the part of m characters kept in front, is any number up to m. */
module PromptBudget {
  import opened Common

  type Count = string -> nat

  ghost predicate IsSplit(head: nat -> nat) { forall m :: head(m) <= m }

  // ---------------------------------------------------------------- candidates and their search

  /** The first m characters. */
  function Head(text: string, m: nat): string { if m <= |text| then text[..m] else text }

  /** m characters of the text, split around the marker. */
  function BothEnds(text: string, head: nat -> nat, marker: string, m: nat): string {
    var h := head(m);
    var tail := Max(0, m - h);
    Head(text, h) + marker + if 0 < tail <= |text| then text[|text| - tail..] else ""
  }

  /** The last length that fitted in a binary search of lo .. hi. */
  function Search(fits: nat -> bool, lo: nat, hi: int, best: Option<nat>): Option<nat>
    decreases hi + 1 - lo
  {
    if lo > hi then best
    else
      var mid := (lo + hi) / 2;
      if fits(mid) then Search(fits, mid + 1, hi, Some(mid)) else Search(fits, lo, mid - 1, best)
  }

  function HeadFits(count: Count, text: string, budget: int): nat -> bool {
    (m: nat) => count(Head(text, m)) <= budget
  }

  function EndsFit(count: Count, text: string, head: nat -> nat, marker: string, budget: int): nat -> bool {
    (m: nat) => count(BothEnds(text, head, marker, m)) <= budget
  }

  function Fallback(text: string): string { Head(text, Max(1, |text| / 10)) }

  /** The candidate for a search result; "" when nothing fitted. */
  function HeadBest(text: string, best: Option<nat>): string {
    match best
    case None => ""
    case Some(m) => Head(text, m)
  }

  function EndsBest(text: string, head: nat -> nat, marker: string, best: Option<nat>): string {
    match best
    case None => ""
    case Some(m) => BothEnds(text, head, marker, m)
  }

  function Truncate(count: Count, head: nat -> nat, marker: string, text: string, budget: int): string {
    if text == "" || budget <= 0 then ""
    else if count(text) <= budget then text
    else if budget <= count(marker) + 8 then
      HeadBest(text, Search(HeadFits(count, text, budget), 0, |text|, None))
    else
      var best := EndsBest(text, head, marker, Search(EndsFit(count, text, head, marker, budget), 0, |text|, None));
      if best != "" then best else Fallback(text)
  }

  method TruncateHead(count: Count, text: string, budget: int) returns (best: string)
    ensures best == HeadBest(text, Search(HeadFits(count, text, budget), 0, |text|, None))
  {
    var lo, hi := 0, |text|;
    best := "";
    ghost var found: Option<nat> := None;
    while lo <= hi
      invariant 0 <= lo && hi <= |text|
      invariant best == HeadBest(text, found)
      invariant Search(HeadFits(count, text, budget), lo, hi, found)
             == Search(HeadFits(count, text, budget), 0, |text|, None)
      decreases hi + 1 - lo
    {
      var mid := (lo + hi) / 2;
      var cand := text[..mid];
      assert cand == Head(text, mid);
      if count(cand) <= budget {
        best, found := cand, Some(mid);
        lo := mid + 1;
      } else {
        hi := mid - 1;
      }
    }
  }

  method TruncateEnds(count: Count, head: nat -> nat, marker: string, text: string, budget: int) returns (best: string)
    requires IsSplit(head)
    ensures best == EndsBest(text, head, marker, Search(EndsFit(count, text, head, marker, budget), 0, |text|, None))
  {
    var lo, hi := 0, |text|;
    best := "";
    ghost var found: Option<nat> := None;
    while lo <= hi
      invariant 0 <= lo && hi <= |text|
      invariant best == EndsBest(text, head, marker, found)
      invariant Search(EndsFit(count, text, head, marker, budget), lo, hi, found)
             == Search(EndsFit(count, text, head, marker, budget), 0, |text|, None)
      decreases hi + 1 - lo
    {
      var mid := (lo + hi) / 2;
      var headLen := head(mid);
      assert headLen <= mid;
      var tailLen := mid - headLen;
      var cand := text[..headLen] + marker + if tailLen > 0 then text[|text| - tailLen..] else "";
      assert cand == BothEnds(text, head, marker, mid);
      if count(cand) <= budget {
        best, found := cand, Some(mid);
        lo := mid + 1;
      } else {
        hi := mid - 1;
      }
    }
  }

  method TruncateTextByTokens(count: Count, head: nat -> nat, marker: string, text: string, budget: int)
    returns (r: string)
    requires IsSplit(head)
    ensures r == Truncate(count, head, marker, text, budget)
    ensures budget <= 0 ==> r == ""
    ensures budget > 0 && count(text) <= budget ==> r == text
  {
    if text == "" || budget <= 0 {
      return "";
    }
    if count(text) <= budget {
      return text;
    }
    if budget <= count(marker) + 8 {
      r := TruncateHead(count, text, budget);
      return;
    }
    r := TruncateEnds(count, head, marker, text, budget);
    if r == "" {
      r := text[..Max(1, |text| / 10)];
    }
  }

  // ---------------------------------------------------------------- what the search finds

  lemma {:induction false} SearchSound(fits: nat -> bool, lo: nat, hi: int, best: Option<nat>)
    requires best.Some? ==> fits(best.value)
    ensures var r := Search(fits, lo, hi, best);
      && (r.Some? ==> fits(r.value) && (r == best || lo <= r.value <= hi))
      && (r.None? ==> best.None?)
    decreases hi + 1 - lo
  {
    if lo <= hi {
      var mid := (lo + hi) / 2;
      if fits(mid) {
        SearchSound(fits, mid + 1, hi, Some(mid));
      } else {
        SearchSound(fits, lo, mid - 1, best);
      }
    }
  }

  /** Also without monotonicity the middle decides: the search ends at or above it if it fits, below it if not. */
  lemma MiddleDecides(fits: nat -> bool, lo: nat, hi: int, best: Option<nat>)
    requires lo <= hi && (best.Some? ==> fits(best.value))
    ensures var r, mid := Search(fits, lo, hi, best), (lo + hi) / 2;
      && (fits(mid) ==> r.Some? && mid <= r.value <= hi)
      && (!fits(mid) ==> r == best || (r.Some? && lo <= r.value < mid))
  {
    var mid := (lo + hi) / 2;
    if fits(mid) {
      SearchSound(fits, mid + 1, hi, Some(mid));
    } else {
      SearchSound(fits, lo, mid - 1, best);
    }
  }

  /** If nothing kept at all fits, the search finds something. */
  lemma {:induction false} SearchReachesZero(fits: nat -> bool, hi: int)
    requires fits(0) && hi >= 0
    ensures Search(fits, 0, hi, None).Some?
    decreases hi
  {
    var mid := (0 + hi) / 2;
    if fits(mid) {
      SearchSound(fits, mid + 1, hi, Some(mid));
    } else {
      SearchReachesZero(fits, mid - 1);
    }
  }

  ghost predicate Monotone(fits: nat -> bool, n: nat) {
    forall a, b :: 0 <= a <= b <= n && fits(b) ==> fits(a)
  }

  /** m is the largest length up to n that fits. */
  ghost predicate Largest(fits: nat -> bool, n: nat, m: nat) {
    m <= n && fits(m) && forall k :: m < k <= n ==> !fits(k)
  }

  /** When fitting is monotone the search returns the largest fitting length, if any fits. */
  lemma {:induction false} SearchFindsLargest(fits: nat -> bool, n: nat, lo: nat, hi: int, best: Option<nat>)
    requires Monotone(fits, n) && lo <= n + 1 && hi <= n && lo <= hi + 1
    requires best == if lo == 0 then None else Some(lo - 1)
    requires lo > 0 ==> fits(lo - 1)
    requires forall k :: hi < k <= n ==> !fits(k)
    ensures var r := Search(fits, lo, hi, best);
      && (r.Some? ==> Largest(fits, n, r.value))
      && (r.None? ==> forall k :: 0 <= k <= n ==> !fits(k))
    decreases hi + 1 - lo
  {
    if lo <= hi {
      var mid := (lo + hi) / 2;
      if fits(mid) {
        SearchFindsLargest(fits, n, mid + 1, hi, Some(mid));
      } else {
        assert forall k :: mid <= k <= n ==> !fits(k);
        SearchFindsLargest(fits, n, lo, mid - 1, best);
      }
    }
  }

  // ---------------------------------------------------------------- truncation keeps the budget

  /** The last line's fallback is taken. */
  ghost predicate FallsBack(count: Count, head: nat -> nat, marker: string, text: string, budget: int) {
    && text != "" && count(text) > budget > count(marker) + 8
    && EndsBest(text, head, marker, Search(EndsFit(count, text, head, marker, budget), 0, |text|, None)) == ""
  }

  lemma NothingKeptFits(count: Count, head: nat -> nat, marker: string, text: string)
    requires IsSplit(head)
    ensures Head(text, 0) == "" && BothEnds(text, head, marker, 0) == marker
  {
    assert head(0) == 0;
  }

  /** Any tokenizer that gives the empty text no tokens: a positive budget is kept, unless the fallback
    is taken and does not fit; and that takes an empty marker. */
  lemma BudgetKeptIff(count: Count, head: nat -> nat, marker: string, text: string, budget: int)
    requires IsSplit(head) && count("") == 0 && budget > 0
    ensures count(Truncate(count, head, marker, text, budget)) <= budget
      <==> !(FallsBack(count, head, marker, text, budget) && count(Fallback(text)) > budget)
    ensures FallsBack(count, head, marker, text, budget) ==> marker == ""
  {
    NothingKeptFits(count, head, marker, text);
    if text != "" && count(text) > budget {
      var f, g := HeadFits(count, text, budget), EndsFit(count, text, head, marker, budget);
      SearchSound(f, 0, |text|, None);
      SearchSound(g, 0, |text|, None);
      if budget > count(marker) + 8 {
        assert g(0);
        SearchReachesZero(g, |text|);
      }
    }
  }

  /** With an empty marker the budget can be overrun. */
  lemma EmptyMarkerOverruns(count: Count, head: nat -> nat)
    requires count == ((s: string) => if s == "" then 0 else 100) && head == ((m: nat) => m)
    ensures IsSplit(head) && count("") == 0
    ensures count(Truncate(count, head, "", "text", 50)) > 50
  {
    var fits := EndsFit(count, "text", head, "", 50);
    forall m: nat | 1 <= m <= 4 ensures !fits(m) {
      assert |BothEnds("text", head, "", m)| == m;
    }
    NothingKeptFits(count, head, "", "text");
    assert Search(fits, 1, 1, Some(0)) == Some(0);
    assert Search(fits, 0, 4, None) == Search(fits, 0, 1, None) == Some(0);
    assert |Fallback("text")| == 1;
  }

  /** So the promise of never exceeding a positive budget holds for every tokenizer, split, text and
    budget if and only if the marker is not empty. */
  lemma BudgetPromiseIff(marker: string)
    ensures marker != "" <==>
      forall count: Count, head: nat -> nat, text: string, budget: int ::
        IsSplit(head) && count("") == 0 && budget > 0 ==> count(Truncate(count, head, marker, text, budget)) <= budget
  {
    if marker == "" {
      var count: Count, head: nat -> nat := (s: string) => if s == "" then 0 else 100, (m: nat) => m;
      EmptyMarkerOverruns(count, head);
    } else {
      forall count: Count, head: nat -> nat, text: string, budget: int | IsSplit(head) && count("") == 0 && budget > 0
        ensures count(Truncate(count, head, marker, text, budget)) <= budget
      {
        BudgetKeptIff(count, head, marker, text, budget);
      }
    }
  }

  lemma BothEndsAre(text: string, head: nat -> nat, marker: string, m: nat)
    requires IsSplit(head) && m <= |text|
    ensures head(m) <= m
    ensures BothEnds(text, head, marker, m) == text[..head(m)] + marker + text[|text| - (m - head(m))..]
  {
  }

  /** The first m characters fit, and no longer start does. */
  ghost predicate LongestStart(count: Count, text: string, budget: int, m: nat) {
    && m <= |text| && count(text[..m]) <= budget
    && forall k :: m < k <= |text| ==> count(text[..k]) > budget
  }

  /** head(m) characters of the start and m - head(m) of the end. */
  function KeptEnds(text: string, head: nat -> nat, marker: string, m: nat): string
    requires head(m) <= m <= |text|
  {
    text[..head(m)] + marker + text[|text| - (m - head(m))..]
  }

  /** That fits, and keeping more characters does not. */
  ghost predicate LongestEnds(count: Count, text: string, head: nat -> nat, marker: string, budget: int, m: nat)
    requires IsSplit(head)
  {
    && m <= |text| && count(KeptEnds(text, head, marker, m)) <= budget
    && forall k: nat :: m < k <= |text| ==> count(KeptEnds(text, head, marker, k)) > budget
  }

  lemma LargestIsLongest(count: Count, text: string, head: nat -> nat, marker: string, budget: int, m: nat)
    requires IsSplit(head)
    ensures Largest(HeadFits(count, text, budget), |text|, m) ==> LongestStart(count, text, budget, m)
    ensures Largest(EndsFit(count, text, head, marker, budget), |text|, m) ==>
      LongestEnds(count, text, head, marker, budget, m)
  {
    var f, g := HeadFits(count, text, budget), EndsFit(count, text, head, marker, budget);
    forall k: nat | k <= |text|
      ensures f(k) <==> count(text[..k]) <= budget
      ensures head(k) <= k && (g(k) <==> count(KeptEnds(text, head, marker, k)) <= budget)
    {
      BothEndsAre(text, head, marker, k);
      assert Head(text, k) == text[..k];
    }
  }

  /** A text too long for its budget is cut to the longest candidate of its shape, if fitting is monotone in the
    length kept: a start of the text if the marker would leave eight tokens or fewer, else a start and an end
    around the marker, or the fallback if that is empty. */
  lemma LongestCandidate(count: Count, head: nat -> nat, marker: string, text: string, budget: int) returns (m: nat)
    requires IsSplit(head) && count("") == 0 && text != "" && count(text) > budget > 0
    requires budget <= count(marker) + 8 ==> Monotone(HeadFits(count, text, budget), |text|)
    requires budget > count(marker) + 8 ==> Monotone(EndsFit(count, text, head, marker, budget), |text|)
    ensures m <= |text| && head(m) <= m
    ensures if budget <= count(marker) + 8 then
        LongestStart(count, text, budget, m) && Truncate(count, head, marker, text, budget) == text[..m]
      else
        LongestEnds(count, text, head, marker, budget, m)
        && var best := KeptEnds(text, head, marker, m);
           Truncate(count, head, marker, text, budget) ==
             if best != "" then best else text[..if |text| < 10 then 1 else |text| / 10]
  {
    NothingKeptFits(count, head, marker, text);
    var f, g := HeadFits(count, text, budget), EndsFit(count, text, head, marker, budget);
    if budget <= count(marker) + 8 {
      assert f(0);
      SearchReachesZero(f, |text|);
      SearchFindsLargest(f, |text|, 0, |text|, None);
      m := Search(f, 0, |text|, None).value;
    } else {
      assert g(0);
      SearchReachesZero(g, |text|);
      SearchFindsLargest(g, |text|, 0, |text|, None);
      m := Search(g, 0, |text|, None).value;
    }
    LargestIsLongest(count, text, head, marker, budget, m);
    BothEndsAre(text, head, marker, m);
    hide Search, Largest, LongestStart, LongestEnds, HeadFits, EndsFit, BothEnds;
  }

  // ---------------------------------------------------------------- fitting a state to its prompt

  /** The tokenizer and the fixed choices of a fit: prompt builder, limit, floor and shrinking step. */
  datatype Fit = Fit(
    count: Count, head: nat -> nat, marker: string,
    build: string -> string, maxTokens: int, minBudget: int, shrink: int -> int)

  function Cut(f: Fit, state: string, budget: int): string { Truncate(f.count, f.head, f.marker, state, budget) }

  predicate Within(f: Fit, state: string) { f.count(f.build(state)) <= f.maxTokens }

  function FirstBudget(f: Fit, state: string): int {
    var overhead := Max(0, f.count(f.build(state)) - f.count(state));
    Max(f.minBudget, f.maxTokens - overhead)
  }

  /** The k-th budget of the loop, if it gets that far. */
  function Tried(f: Fit, state: string, k: nat): int {
    if k == 0 then FirstBudget(f, state) else Max(f.minBudget, f.shrink(Tried(f, state, k - 1)))
  }

  predicate FitsAt(f: Fit, state: string, k: nat) { Within(f, Cut(f, state, Tried(f, state, k))) }

  predicate StopsAt(f: Fit, state: string, k: nat) { FitsAt(f, state, k) || Tried(f, state, k) <= f.minBudget }

  ghost predicate FirstStop(f: Fit, state: string, k: nat) {
    StopsAt(f, state, k) && forall j :: 0 <= j < k ==> !StopsAt(f, state, j)
  }

  /** r is what a fit returns: nothing for a limit that is not positive, the state if its prompt fits, else
    the cut at which the loop stops first. */
  ghost predicate IsFit(f: Fit, state: string, r: string) {
    if f.maxTokens <= 0 then r == ""
    else if Within(f, state) then r == state
    else exists k: nat :: FirstStop(f, state, k) && r == Cut(f, state, Tried(f, state, k))
  }

  /** The fit returns at all. */
  ghost predicate Ends(f: Fit, state: string) { exists r :: IsFit(f, state, r) }

  /** It returns, with a prompt within the limit. */
  ghost predicate Succeeds(f: Fit, state: string) { exists r :: IsFit(f, state, r) && Within(f, r) }

  /** Multiplying by a ratio below one and truncating toward zero. */
  ghost predicate Shrinks(f: Fit) {
    && IsSplit(f.head)
    && (forall b :: b > 0 ==> 0 <= f.shrink(b) < b)
    && (forall b :: b <= 0 ==> b <= f.shrink(b) <= 0)
  }

  lemma StopIsFirst(f: Fit, state: string, k: nat, last: nat)
    requires FirstStop(f, state, last) && k <= last
    ensures StopsAt(f, state, k) <==> k == last
  {
  }

  lemma TriedNext(f: Fit, state: string, k: nat)
    ensures Tried(f, state, 0) == FirstBudget(f, state)
         == Max(f.minBudget, f.maxTokens - Max(0, f.count(f.build(state)) - f.count(state)))
    ensures Tried(f, state, k + 1) == Max(f.minBudget, f.shrink(Tried(f, state, k)))
  {
  }

  /** Returns on every input on which the source's loop ends; EndsIff says which these are. */
  method FitStateToBudget(f: Fit, state: string) returns (r: string)
    requires IsSplit(f.head) && Ends(f, state)
    ensures IsFit(f, state, r)
    ensures f.maxTokens <= 0 ==> r == ""
    ensures f.maxTokens > 0 && f.count(f.build(state)) <= f.maxTokens ==> r == state
  {
    if f.maxTokens <= 0 {
      return "";
    }
    var prompt := f.build(state);
    if f.count(prompt) <= f.maxTokens {
      return state;
    }
    var overhead := Max(0, f.count(prompt) - f.count(state));
    var budget := Max(f.minBudget, f.maxTokens - overhead);
    ghost var last: nat :| FirstStop(f, state, last);
    ghost var k: nat := 0;
    TriedNext(f, state, 0);
    hide Truncate, FirstStop, Tried, FirstBudget;
    while true
      invariant k <= last && budget == Tried(f, state, k)
      decreases last - k
    {
      var candidate := TruncateTextByTokens(f.count, f.head, f.marker, state, budget);
      if f.count(f.build(candidate)) <= f.maxTokens || budget <= f.minBudget {
        StopIsFirst(f, state, k, last);
        return candidate;
      }
      StopIsFirst(f, state, k, last);
      budget := Max(f.minBudget, f.shrink(budget));
      TriedNext(f, state, k);
      k := k + 1;
    }
  }

  // ---------------------------------------------------------------- when the loop ends

  /** If the loop would stop somewhere, it stops somewhere first. */
  lemma {:induction false} StopsFirst(f: Fit, state: string, n: nat) returns (k: nat)
    requires StopsAt(f, state, n)
    ensures k <= n && FirstStop(f, state, k)
    decreases n
  {
    if j: nat :| j < n && StopsAt(f, state, j) {
      k := StopsFirst(f, state, j);
    } else {
      k := n;
    }
  }

  lemma StopMeansEnd(f: Fit, state: string, n: nat)
    requires StopsAt(f, state, n)
    ensures Ends(f, state)
  {
    var k := StopsFirst(f, state, n);
    var cut := Cut(f, state, Tried(f, state, k));
    assert if f.maxTokens <= 0 then IsFit(f, state, "")
           else if Within(f, state) then IsFit(f, state, state) else IsFit(f, state, cut);
  }

  /** The budget falls by at least one each time, down to the floor or to zero. */
  lemma {:induction false} TriedFalls(f: Fit, state: string, k: nat)
    requires Shrinks(f)
    ensures Tried(f, state, k) <= Max(Max(0, f.minBudget), FirstBudget(f, state) - k)
  {
    if k > 0 {
      TriedFalls(f, state, k - 1);
    }
  }

  lemma FloorIsReached(f: Fit, state: string) returns (n: nat)
    requires Shrinks(f)
    ensures Tried(f, state, n) <= Max(0, f.minBudget)
  {
    n := Max(0, FirstBudget(f, state));
    TriedFalls(f, state, n);
  }

  /** Truncation toward zero stays above a negative floor. */
  lemma {:induction false} StaysAboveFloor(f: Fit, state: string, k: nat)
    requires Shrinks(f) && f.minBudget < 0 && FirstBudget(f, state) > f.minBudget
    ensures Tried(f, state, k) > f.minBudget
  {
    if k > 0 {
      StaysAboveFloor(f, state, k - 1);
    }
  }

  /** The fit returns exactly when nothing needs cutting, the floor is not negative or is the first budget,
    or the cut at some budget on the way fits. */
  lemma EndsIff(f: Fit, state: string)
    requires Shrinks(f)
    ensures Ends(f, state) <==>
      || f.maxTokens <= 0 || Within(f, state)
      || f.minBudget >= 0 || FirstBudget(f, state) <= f.minBudget
      || exists k: nat :: FitsAt(f, state, k)
  {
    if f.maxTokens <= 0 {
      assert IsFit(f, state, "");
    } else if Within(f, state) {
      assert IsFit(f, state, state);
    } else if f.minBudget >= 0 {
      var n := FloorIsReached(f, state);
      StopMeansEnd(f, state, n);
    } else if FirstBudget(f, state) <= f.minBudget {
      StopMeansEnd(f, state, 0);
    } else if k: nat :| FitsAt(f, state, k) {
      StopMeansEnd(f, state, k);
    } else {
      forall k: nat ensures !StopsAt(f, state, k) {
        StaysAboveFloor(f, state, k);
      }
    }
  }

  function Fill(n: nat): string { seq(n, i => 'x') }

  /** A prompt that costs 10 tokens whatever the state, for a limit of 5. */
  lemma ConstantPromptLoops(minBudget: int) returns (f: Fit, state: string)
    requires minBudget < 0
    ensures f.minBudget == minBudget && Shrinks(f) && !Ends(f, state)
  {
    f := Fit((s: string) => |s|, (m: nat) => m, "...", (s: string) => Fill(10), 5, minBudget, (b: int) => 0);
    state := Fill(10);
    assert |Fill(10)| == 10;
    EndsIff(f, state);
  }

  /** So the fit returns for every tokenizer, prompt and state if and only if the floor is not negative. */
  lemma EndsPromiseIff(minBudget: int)
    ensures minBudget >= 0 <==>
      forall f: Fit, state: string :: f.minBudget == minBudget && Shrinks(f) ==> Ends(f, state)
  {
    if minBudget >= 0 {
      forall f: Fit, state: string | f.minBudget == minBudget && Shrinks(f) ensures Ends(f, state) {
        EndsIff(f, state);
      }
    } else {
      var f, state := ConstantPromptLoops(minBudget);
    }
  }

  // ---------------------------------------------------------------- when the limit is met

  /** The loop comes as far as its k-th budget unless a cut fits before: no earlier one is the floor. */
  ghost predicate AboveFloorUntil(f: Fit, state: string, k: nat) {
    forall j :: 0 <= j < k ==> Tried(f, state, j) > f.minBudget
  }

  lemma NotBelowFloor(f: Fit, state: string, k: nat)
    ensures Tried(f, state, k) >= f.minBudget
  {
  }

  /** The loop stops first at a cut that fits, unless no cut down to the floor does. */
  lemma FirstStopFits(f: Fit, state: string, k: nat)
    requires FirstStop(f, state, k)
    ensures FitsAt(f, state, k) <==> exists n: nat :: FitsAt(f, state, n) && AboveFloorUntil(f, state, n)
    ensures !FitsAt(f, state, k) ==> Tried(f, state, k) == f.minBudget
  {
    hide Within, Cut, FirstBudget;
    NotBelowFloor(f, state, k);
    hide Tried;
    if FitsAt(f, state, k) {
      forall j | 0 <= j < k ensures Tried(f, state, j) > f.minBudget {
        assert !StopsAt(f, state, j);
      }
      assert AboveFloorUntil(f, state, k);
    } else {
      forall n: nat | AboveFloorUntil(f, state, n) ensures !FitsAt(f, state, n) {
        assert k < n ==> Tried(f, state, k) > f.minBudget;
        assert n < k ==> !StopsAt(f, state, n);
      }
    }
  }

  /** What a fit returns is within the limit exactly when the state or the cut at some budget down to the
    floor is (or, for a limit that is not positive, the empty state); failing that, it is the cut at the
    floor. */
  lemma FitMeetsLimitIff(f: Fit, state: string, r: string)
    requires IsFit(f, state, r)
    ensures f.maxTokens <= 0 ==> (Within(f, r) <==> Within(f, ""))
    ensures f.maxTokens > 0 ==>
      (Within(f, r) <==> (Within(f, state) || exists k: nat :: FitsAt(f, state, k) && AboveFloorUntil(f, state, k)))
    ensures f.maxTokens > 0 && !Within(f, r) ==> r == Cut(f, state, f.minBudget)
  {
    hide Cut, FirstStop, Tried, AboveFloorUntil;
    if f.maxTokens > 0 && !Within(f, state) {
      var k: nat :| FirstStop(f, state, k) && r == Cut(f, state, Tried(f, state, k));
      FirstStopFits(f, state, k);
    }
  }

  /** The loop first tries what the limit leaves beside the prompt's own cost, and no less if that fits. */
  lemma FirstCutWins(f: Fit, state: string, r: string)
    requires IsFit(f, state, r) && f.maxTokens > 0 && f.count(f.build(state)) > f.maxTokens
    ensures var overhead := f.count(f.build(state)) - f.count(state);
      var room := f.maxTokens - if overhead > 0 then overhead else 0;
      var cut := Cut(f, state, if room >= f.minBudget then room else f.minBudget);
      Within(f, cut) ==> r == cut
  {
    hide Truncate;
    var k: nat :| FirstStop(f, state, k) && r == Cut(f, state, Tried(f, state, k));
    if FitsAt(f, state, 0) {
      assert StopsAt(f, state, 0);
      assert k == 0;
    }
  }

  lemma CutKeepsBudget(f: Fit, state: string, budget: int)
    requires IsSplit(f.head) && f.count("") == 0 && f.marker != ""
    ensures f.count(Cut(f, state, budget)) <= Max(0, budget)
  {
    if budget > 0 {
      BudgetKeptIff(f.count, f.head, f.marker, state, budget);
    }
  }

  /** So if a prompt costs exactly `fixed` tokens more than its state, no token of the limit is given away: the
    state is cut to just the tokens that are left, provided they are not below the floor. */
  lemma AllRoomIsUsed(f: Fit, state: string, fixed: nat, r: string)
    requires IsFit(f, state, r) && IsSplit(f.head) && f.count("") == 0 && f.marker != "" && f.maxTokens > 0
    requires forall s :: f.count(f.build(s)) == fixed + f.count(s)
    requires f.count(state) > f.maxTokens - fixed && f.maxTokens - fixed >= Max(0, f.minBudget)
    ensures r == Truncate(f.count, f.head, f.marker, state, f.maxTokens - fixed)
  {
    CutKeepsBudget(f, state, f.maxTokens - fixed);
    FirstCutWins(f, state, r);
  }

  /** A tokenizer and prompt of the ordinary kind: a prompt costs at most `fixed` tokens more than its state. */
  ghost predicate Additive(f: Fit, fixed: nat) {
    && Shrinks(f) && f.count("") == 0 && f.marker != ""
    && forall s :: f.count(f.build(s)) <= fixed + f.count(s)
  }

  /** If the floor leaves room for the prompt's own cost, the fit returns within the limit. */
  lemma AdditivePromptFits(f: Fit, state: string, fixed: nat)
    requires Additive(f, fixed) && fixed + Max(0, f.minBudget) <= f.maxTokens
    ensures Succeeds(f, state)
  {
    if f.maxTokens <= 0 {
      assert IsFit(f, state, "");
    } else if Within(f, state) {
      assert IsFit(f, state, state);
    } else {
      var n := FloorIsReached(f, state);
      CutKeepsBudget(f, state, Tried(f, state, n));
      assert FitsAt(f, state, n);
      var k := StopsFirst(f, state, n);
      CutKeepsBudget(f, state, Tried(f, state, k));
      assert IsFit(f, state, Cut(f, state, Tried(f, state, k)));
    }
  }

  predicate Chosen(f: Fit, marker: string, minBudget: int, maxTokens: int) {
    f.marker == marker && f.minBudget == minBudget && f.maxTokens == maxTokens
  }

  /** Characters as tokens, a prompt of `fixed` characters before the state. */
  function Padded(fixed: nat, marker: string, minBudget: int, maxTokens: int): Fit {
    Fit((s: string) => |s|, (m: nat) => m, marker, (s: string) => Fill(fixed) + s, maxTokens, minBudget, (b: int) => 0)
  }

  /** Cutting by characters uses up the whole budget. */
  lemma CharactersFillBudget(marker: string, state: string, budget: int)
    requires 0 < budget < |state|
    ensures |Truncate((s: string) => |s|, (m: nat) => m, marker, state, budget)| >= budget
  {
    var count: Count, head: nat -> nat := (s: string) => |s|, (m: nat) => m;
    assert forall m: nat :: m <= |state| ==> |Head(state, m)| == m;
    assert forall m: nat :: m <= |state| ==> |BothEnds(state, head, marker, m)| == m + |marker|;
    var m := LongestCandidate(count, head, marker, state, budget);
    assert forall k: nat :: k <= |state| ==> |KeptEnds(state, head, marker, k)| == k + |marker|;
    if budget <= count(marker) + 8 {
      assert count(state[..budget]) == budget;
    } else {
      assert count(KeptEnds(state, head, marker, budget - |marker|)) == budget;
      assert m >= budget - |marker|;
    }
    hide Truncate;
  }

  lemma {:induction false} OnlyFloorTried(fixed: nat, marker: string, minBudget: int, maxTokens: int,
                                          state: string, k: nat)
    requires 0 < maxTokens < fixed + Max(0, minBudget)
    ensures var b := Tried(Padded(fixed, marker, minBudget, maxTokens), state, k);
      b == minBudget || b <= 0
  {
    if k > 0 {
      OnlyFloorTried(fixed, marker, minBudget, maxTokens, state, k - 1);
    } else {
      assert |Fill(fixed) + state| == fixed + |state|;
    }
  }

  /** The overrun: a state one character longer than the floor. */
  lemma TightFloorOverruns(fixed: nat, marker: string, minBudget: int, maxTokens: int) returns (f: Fit, state: string)
    requires 0 < maxTokens < fixed + Max(0, minBudget) && marker != ""
    ensures Additive(f, fixed) && Chosen(f, marker, minBudget, maxTokens) && !Succeeds(f, state)
  {
    f, state := Padded(fixed, marker, minBudget, maxTokens), Fill(Max(0, minBudget) + 1);
    assert |state| == Max(0, minBudget) + 1 && forall s: string :: |f.build(s)| == fixed + |s|;
    forall k: nat ensures !FitsAt(f, state, k) {
      OnlyFloorTried(fixed, marker, minBudget, maxTokens, state, k);
      if minBudget > 0 {
        CharactersFillBudget(marker, state, minBudget);
      }
    }
    forall r | IsFit(f, state, r) ensures !Within(f, r) {
      FitMeetsLimitIff(f, state, r);
    }
  }

  /** And only then: of all ordinary tokenizers and prompts with that cost, floor and limit, every fit returns
    within a positive limit if and only if the cost and the floor together are within it. */
  lemma LimitPromiseIff(fixed: nat, marker: string, minBudget: int, maxTokens: int)
    requires maxTokens > 0 && marker != ""
    ensures fixed + Max(0, minBudget) <= maxTokens <==>
      forall f: Fit, state: string ::
        Additive(f, fixed) && Chosen(f, marker, minBudget, maxTokens) ==> Succeeds(f, state)
  {
    if fixed + Max(0, minBudget) <= maxTokens {
      forall f: Fit, state: string | Additive(f, fixed) && Chosen(f, marker, minBudget, maxTokens)
        ensures Succeeds(f, state)
      {
        AdditivePromptFits(f, state, fixed);
      }
    } else {
      var f, state := TightFloorOverruns(fixed, marker, minBudget, maxTokens);
    }
  }
}
