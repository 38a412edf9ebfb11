/** What the page allocator of trash/jdbx_page_manager_old.c (lines 426-554) promises, on values:
    the pages in use, the two steps that change them, and what holds over every run. */
module PageAllocation {

  datatype Pages = Pages(
    used: set<nat>,  // pages whose bitmap bit is set
    total: nat,      // header->total_pages
    free: nat,       // header->free_pages, a cached count
    hint: nat,       // hint_page
    root: nat,       // header->root_directory_page
    words: nat)      // 64-bit words in the bitmap

  predicate IsFree(s: Pages, p: nat) { p < s.total && p !in s.used }

  ghost predicate Full(s: Pages) { forall p: nat :: !IsFree(s, p) }

  /** The allocator's invariant. Page 0 is the header, pages 1..root-1 hold the bitmap. */
  ghost predicate Inv(s: Pages) {
    && (forall p <- s.used :: p < s.total)
    && (forall p: nat :: p <= s.root ==> p in s.used)
    && 0 < s.root < s.total <= s.words * 64
    && s.free + |s.used| == s.total
  }

  // ----- Next fit: words are visited in a circle that starts at the hinted word

  function Turn(s: Pages, word: nat): int
    requires s.words > 0
  {
    var start := s.hint / 64 % s.words;
    if word >= start then word - start else word - start + s.words
  }

  function Rank(s: Pages, p: nat): int
    requires s.words > 0
  {
    Turn(s, p / 64) * 64 + p % 64
  }

  ghost predicate NextFit(s: Pages, p: nat)
    requires s.words > 0
  {
    IsFree(s, p) && forall q: nat :: IsFree(s, q) ==> Rank(s, p) <= Rank(s, q)
  }

  // ----- The steps

  function Growth(total: nat): nat { if total / 10 < 100 then 100 else total / 10 }

  /** A full file grows by a tenth of its pages, rounded down, and by 100 when that is more. */
  lemma GrowthIsATenth(total: nat)
    ensures var g := Growth(total);
            && g >= 100 && (g > 100 ==> 10 * g <= total < 10 * (g + 1)) && (g == 100 ==> total < 1010)
  {
  }

  /** The growth of a full file would stay inside the bitmap pages reserved at creation. */
  ghost predicate CanAlloc(s: Pages) {
    Full(s) ==> s.total + Growth(s.total) <= s.words * 64
  }

  ghost predicate SafeToAlloc(s: Pages, grows: bool) { CanAlloc(s) || !grows }

  /** jdbx_alloc_page; `grows` says whether the file could be extended if that was needed. */
  ghost predicate AllocStep(s: Pages, s': Pages, grows: bool, page: nat)
    requires s.words > 0
  {
    if !Full(s) then
      && NextFit(s, page)
      && s'.free + 1 == s.free
      && s' == s.(used := s.used + {page}, free := s'.free, hint := page + 1)
    else if grows then
      && page == s.total
      && s'.free + 1 == s.free + Growth(s.total)
      && s' == s.(used := s.used + {page}, total := s.total + Growth(s.total), free := s'.free)
    else
      page == 0 && s' == s
  }

  predicate ValidId(s: Pages, page: nat) { 0 < page < s.total }

  /** jdbx_free_page. Nothing checks that the page is in use, or that it is not reserved. */
  ghost predicate FreeStep(s: Pages, s': Pages, page: nat) {
    if ValidId(s, page) then
      s' == s.(used := s.used - {page}, free := s.free + 1, hint := if page < s.hint then page else s.hint)
    else
      s' == s
  }

  predicate SafeToFree(s: Pages, page: nat) { ValidId(s, page) ==> page in s.used && page > s.root }

  // ----- One step

  /** An allocation keeps the invariant exactly when it does not make the file outgrow the bitmap pages reserved at
      creation, which the code does not check. */
  lemma AllocKeepsInvIff(s: Pages, s': Pages, grows: bool, page: nat)
    requires Inv(s) && AllocStep(s, s', grows, page)
    ensures Inv(s') <==> SafeToAlloc(s, grows)
    ensures page == 0 <==> Full(s) && !grows
    ensures page != 0 ==> page !in s.used && page > s.root && s'.used == s.used + {page}
  {
    if !Full(s) {
      assert s'.total == s.total;
    }
  }

  /** Freeing keeps the invariant exactly when the page is in use and not reserved: a double free makes
      the cached count wrong, and freeing a reserved page clears a reserved bit. */
  lemma FreeKeepsInvIff(s: Pages, s': Pages, page: nat)
    requires Inv(s) && FreeStep(s, s', page)
    ensures Inv(s') <==> SafeToFree(s, page)
  {
    if ValidId(s, page) && page !in s.used {
      assert s.used - {page} == s.used;
    } else if ValidId(s, page) && page <= s.root {
      assert page !in s'.used;
    }
  }

  /** A free page exists exactly when the cached count is positive. */
  lemma CountDecides(s: Pages)
    requires Inv(s)
    ensures Full(s) <==> s.free == 0
  {
    var all := Below(s.total);
    if Full(s) {
      forall p <- all ensures p in s.used { assert !IsFree(s, p); }
      assert all == s.used;
    } else {
      var p: nat :| IsFree(s, p);
      SubsetSize(s.used + {p}, all);
    }
  }

  function Below(n: nat): (r: set<nat>)
    ensures |r| == n && forall p: nat :: p in r <==> p < n
  {
    if n == 0 then {} else Below(n - 1) + {n - 1}
  }

  lemma {:induction false} SubsetSize(a: set<nat>, b: set<nat>)
    requires a <= b
    ensures |a| <= |b|
  {
    if x :| x in a {
      SubsetSize(a - {x}, b - {x});
    }
  }

  // ----- Every run

  datatype Event = Alloc(grows: bool, page: nat) | Free(page: nat)

  ghost predicate Step(s: Pages, e: Event, s': Pages)
    requires s.words > 0
  {
    match e
    case Alloc(grows, page) => AllocStep(s, s', grows, page)
    case Free(page) => FreeStep(s, s', page)
  }

  ghost predicate Safe(s: Pages, e: Event) {
    match e
    case Alloc(grows, _) => SafeToAlloc(s, grows)
    case Free(page) => SafeToFree(s, page)
  }

  /** states[i] goes to states[i+1] by events[i], from a state in which the invariant holds. */
  ghost predicate Run(states: seq<Pages>, events: seq<Event>) {
    && |states| == |events| + 1
    && Inv(states[0])
    && forall i :: 0 <= i < |events| ==> states[i].words > 0 && Step(states[i], events[i], states[i + 1])
  }

  ghost predicate AllSafe(states: seq<Pages>, events: seq<Event>)
    requires |states| == |events| + 1
  {
    forall i :: 0 <= i < |events| ==> Safe(states[i], events[i])
  }

  lemma StepKeepsInvIff(s: Pages, e: Event, s': Pages)
    requires Inv(s) && Step(s, e, s')
    ensures Inv(s') <==> Safe(s, e)
    ensures s'.root == s.root && s'.words == s.words && s'.total >= s.total
  {
    match e
    case Alloc(grows, page) => AllocKeepsInvIff(s, s', grows, page);
    case Free(page) => FreeKeepsInvIff(s, s', page);
  }

  lemma {:induction false} RunKeepsInv(states: seq<Pages>, events: seq<Event>, n: nat)
    requires Run(states, events) && n < |states|
    requires forall i :: 0 <= i < n ==> Safe(states[i], events[i])
    ensures Inv(states[n])
    ensures states[n].root == states[0].root && states[n].words == states[0].words
    ensures states[n].total >= states[0].total
  {
    if n > 0 {
      RunKeepsInv(states, events, n - 1);
      assert Step(states[n - 1], events[n - 1], states[n]);
      StepKeepsInvIff(states[n - 1], events[n - 1], states[n]);
    }
  }

  /** In any run of calls the invariant holds throughout exactly when every call was safe. */
  lemma RunKeepsInvIff(states: seq<Pages>, events: seq<Event>)
    requires Run(states, events)
    ensures (forall n :: 0 <= n < |states| ==> Inv(states[n])) <==> AllSafe(states, events)
  {
    if AllSafe(states, events) {
      forall n | 0 <= n < |states| ensures Inv(states[n]) {
        RunKeepsInv(states, events, n);
      }
    } else {
      var i :| 0 <= i < |events| && !Safe(states[i], events[i]);
      assert Step(states[i], events[i], states[i + 1]);
      if Inv(states[i]) {
        StepKeepsInvIff(states[i], events[i], states[i + 1]);
      }
    }
  }

  /** A page in use stays in use until it is freed. */
  lemma {:induction false} InUseUntilFreed(states: seq<Pages>, events: seq<Event>, i: nat, j: nat, page: nat)
    requires Run(states, events) && i <= j < |states|
    requires page in states[i].used
    requires forall k :: i <= k < j ==> events[k] != Free(page)
    ensures page in states[j].used
  {
    if i < j {
      InUseUntilFreed(states, events, i, j - 1, page);
      assert Step(states[j - 1], events[j - 1], states[j]);
    }
  }

  /** A page handed out twice in a safe run was freed in between, whatever the hints and growths. */
  lemma NeverHandedOutTwice(states: seq<Pages>, events: seq<Event>, i: nat, j: nat)
    requires Run(states, events) && AllSafe(states, events) && i < j < |events|
    requires events[i].Alloc? && events[j].Alloc? && events[i].page == events[j].page != 0
    ensures exists k :: i < k < j && events[k] == Free(events[i].page)
  {
    var page := events[i].page;
    assert Step(states[i], events[i], states[i + 1]) && Step(states[j], events[j], states[j + 1]);
    RunKeepsInv(states, events, i);
    RunKeepsInv(states, events, j);
    if forall k :: i < k < j ==> events[k] != Free(page) {
      InUseUntilFreed(states, events, i + 1, j, page);
      assert false;
    }
  }

  /** Every page handed out lies outside the header, the bitmap and the root directory. */
  lemma HandedOutIsNotReserved(states: seq<Pages>, events: seq<Event>, i: nat)
    requires Run(states, events) && AllSafe(states, events) && i < |events| && events[i].Alloc?
    ensures events[i].page == 0 || states[0].root < events[i].page < states[i + 1].total
  {
    RunKeepsInv(states, events, i);
    assert Step(states[i], events[i], states[i + 1]);
  }

  // ----- Which page an allocation takes

  /** No free page lies in a word before the hinted one. */
  ghost predicate HintIsLow(s: Pages) {
    s.hint <= s.total && forall q: nat :: IsFree(s, q) ==> s.hint / 64 <= q / 64
  }

  lemma SmallRemainder(a: nat, n: nat)
    requires a < n
    ensures a % n == a
  {
  }

  lemma SameWordOrLater(a: nat, b: nat)
    requires a <= b
    ensures a / 64 <= b / 64
  {
  }

  /** While the search does not wrap, ranks are distances from the start of the hinted word. */
  lemma RankIsDistance(s: Pages, p: nat)
    requires 0 < s.words && s.hint / 64 <= p / 64 < s.words
    ensures Rank(s, p) == p - 64 * (s.hint / 64)
  {
    SmallRemainder(s.hint / 64, s.words);
  }

  lemma NextFitIsLowest(s: Pages, p: nat, q: nat)
    requires Inv(s) && HintIsLow(s) && NextFit(s, p) && IsFree(s, q)
    ensures p <= q
  {
    assert IsFree(s, p) && s.total <= s.words * 64;
    assert s.hint / 64 <= p / 64 < s.words && s.hint / 64 <= q / 64 < s.words;
    RankIsDistance(s, p);
    RankIsDistance(s, q);
    assert Rank(s, p) <= Rank(s, q);
    hide Rank;
  }

  lemma StepKeepsHint(s: Pages, e: Event, s': Pages)
    requires Inv(s) && Step(s, e, s') && HintIsLow(s)
    ensures HintIsLow(s')
  {
    assert s.words > 0;
    hide Inv, NextFit;
    if e.Alloc? && !Full(s) {
      NextFitIsFree(s, e.page);
      forall q: nat | IsFree(s', q) ensures s'.hint / 64 <= q / 64 {
        NextFitIsLowest(s, e.page, q);
        SameWordOrLater(e.page + 1, q);
      }
    } else if e.Alloc? {
      forall q: nat | IsFree(s', q) ensures s'.hint / 64 <= q / 64 {
        assert !IsFree(s, q);
        SameWordOrLater(s.hint, q);
      }
    } else if ValidId(s, e.page) {
      forall q: nat | IsFree(s', q) ensures s'.hint / 64 <= q / 64 {
        SameWordOrLater(s'.hint, e.page);
        SameWordOrLater(s'.hint, s.hint);
        assert q == e.page || IsFree(s, q);
      }
    }
  }

  lemma NextFitIsFree(s: Pages, p: nat)
    requires 0 < s.words && NextFit(s, p)
    ensures IsFree(s, p)
  {
  }

  lemma {:induction false} HintStaysLow(states: seq<Pages>, events: seq<Event>, n: nat)
    requires Run(states, events) && AllSafe(states, events) && HintIsLow(states[0]) && n < |states|
    ensures HintIsLow(states[n])
  {
    if n > 0 {
      HintStaysLow(states, events, n - 1);
      RunKeepsInv(states, events, n - 1);
      assert Step(states[n - 1], events[n - 1], states[n]);
      StepKeepsHint(states[n - 1], events[n - 1], states[n]);
    }
  }

  /** Although the search goes round in a circle, in a run of safe calls from a new file, whose hint is 0, every
      allocation takes the lowest free page, and the first new one when no page is free. */
  lemma LowestPageIsTaken(states: seq<Pages>, events: seq<Event>, i: nat)
    requires Run(states, events) && AllSafe(states, events) && states[0].hint == 0
    requires i < |events| && events[i].Alloc? && events[i].page != 0
    ensures forall q: nat :: IsFree(states[i], q) ==> events[i].page <= q
    ensures IsFree(states[i], events[i].page) || (Full(states[i]) && events[i].page == states[i].total)
  {
    HintStaysLow(states, events, i);
    RunKeepsInv(states, events, i);
    assert Step(states[i], events[i], states[i + 1]);
    if !Full(states[i]) {
      forall q: nat | IsFree(states[i], q) ensures events[i].page <= q {
        NextFitIsLowest(states[i], events[i].page, q);
      }
    }
  }
}
