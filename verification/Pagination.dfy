/** Reading a bounded NetBox result set page by page, whatever the server answers. */
module Pagination {
  import opened Sequences

  const MAX_POPULATION := 10_000

  datatype Next = NoNext | NextUrl | BadNext

  /** A decoded answer; None stands for a field of the wrong type. */
  datatype Payload = Payload(results: Option<seq<nat>>, count: Option<int>, next: Next)

  /** One read and its answer; None for any transport or status failure. */
  datatype Read = Read(offset: nat, answer: Option<Payload>)

  datatype PageError = Unavailable | InvalidSchema | TooLarge | Changed | Incomplete | InvalidPagination

  /** Page `i` was read at the offset that is the number of results before it, with the same count. */
  ghost predicate PageAt(made: seq<Read>, pages: seq<seq<nat>>, i: nat, count: int)
    requires i < |pages| <= |made|
  {
    && made[i].offset == |Flatten(pages[..i])|
    && made[i].answer.Some?
    && made[i].answer.value.results == Some(pages[i])
    && made[i].answer.value.count == Some(count)
  }

  ghost predicate Paged(made: seq<Read>, pages: seq<seq<nat>>, count: int) {
    && |pages| <= |made|
    && forall i {:trigger PageAt(made, pages, i, count)} | 0 <= i < |pages| :: PageAt(made, pages, i, count)
  }

  /** An answer after which reading goes on: a non-empty page that announces another. */
  predicate GoesOn(read: Read) {
    && read.answer.Some? && read.answer.value.next == NextUrl
    && read.answer.value.results.Some? && read.answer.value.results.value != []
  }

  ghost predicate Continuing(made: seq<Read>) {
    forall i {:trigger GoesOn(made[i])} | 0 <= i < |made| :: GoesOn(made[i])
  }

  lemma PagedGrows(made: seq<Read>, pages: seq<seq<nat>>, page: seq<nat>, count: int, next: Next)
    requires Paged(made, pages, count) && |pages| == |made|
    ensures Paged(made + [Read(|Flatten(pages)|, Some(Payload(Some(page), Some(count), next)))], pages + [page], count)
  {
    var longer, more := made + [Read(|Flatten(pages)|, Some(Payload(Some(page), Some(count), next)))], pages + [page];
    forall i | 0 <= i < |more| ensures PageAt(longer, more, i, count) {
      if i < |pages| {
        assert PageAt(made, pages, i, count);
        assert more[..i] == pages[..i];
      } else {
        assert more[..i] == pages;
      }
    }
  }

  /** Non-empty pages: as many results as pages, at least. */
  lemma {:induction false} PagesCount(made: seq<Read>, pages: seq<seq<nat>>, count: int)
    requires Paged(made, pages, count) && |pages| == |made| && Continuing(made)
    ensures |pages| <= |Flatten(pages)|
  {
    if pages != [] {
      var n := |pages| - 1;
      forall i | 0 <= i < n ensures PageAt(made[..n], pages[..n], i, count) {
        assert PageAt(made, pages, i, count);
        assert pages[..n][..i] == pages[..i];
      }
      PagesCount(made[..n], pages[..n], count);
      assert PageAt(made, pages, n, count) && GoesOn(made[n]);
      FlattenOneMore(pages[..n], pages[n]);
      assert pages == pages[..n] + [pages[n]];
    }
  }

  /** A payload whose results and count are what they should be. */
  predicate Readable(answer: Option<Payload>) {
    answer.Some? && answer.value.results.Some? && answer.value.count.Some? && answer.value.count.value >= 0
  }

  /** Readable, and within the bound if it is the first, with the count of the first if it is not. */
  predicate Countable(answer: Option<Payload>, expected: int) {
    Readable(answer) &&
    if expected < 0 then answer.value.count.value <= 10_000 else answer.value.count.value == expected
  }

  /** Each defect of an answer, and the error it gives; without a defect the page is taken. */
  lemma JudgesExactly(answer: Option<Payload>, expected: int, had: nat)
    requires expected <= 10_000
    ensures var s := Judge(answer, expected, had);
            && (s == Fail(Unavailable) <==> answer == None)
            && (s == Fail(InvalidSchema) <==> answer.Some? && !Readable(answer))
            && (s == Fail(TooLarge) <==> Readable(answer) && expected < 0 && answer.value.count.value > 10_000)
            && (s == Fail(Changed) <==> Readable(answer) && expected >= 0 && answer.value.count.value != expected)
            && (Countable(answer, expected) ==>
                  var page, count := answer.value.results.value, answer.value.count.value;
                  && (s == Finish(page) <==> answer.value.next == NoNext && had + |page| == count)
                  && (s == Fail(Incomplete) <==> answer.value.next == NoNext && had + |page| != count)
                  && (s == GoOn(page, count) <==>
                        answer.value.next == NextUrl && page != [] && had + |page| < count)
                  && (s == Fail(InvalidPagination) <==>
                        answer.value.next == BadNext
                        || (answer.value.next == NextUrl && (page == [] || had + |page| >= count))))
  {}

  /** What a fully read result set shows: the last answer, and only the last, announces no further page. */
  ghost predicate Complete(made: seq<Read>, pages: seq<seq<nat>>, count: int) {
    && made != [] && |pages| == |made| && Paged(made, pages, count)
    && Continuing(made[..|made| - 1])
    && made[|made| - 1].answer.Some? && made[|made| - 1].answer.value.next == NoNext
  }

  /** The reads of one call that has not failed: all but the last answer went on, each offset is where the pages end. */
  ghost predicate InOrder(made: seq<Read>, pages: seq<seq<nat>>, count: int) {
    && made != [] && Paged(made, pages, count)
    && Continuing(made[..|made| - 1])
    && |made| - 1 <= |pages|
    && made[|made| - 1].offset == |Flatten(pages[..|made| - 1])|
  }

  lemma NextRead(made: seq<Read>, pages: seq<seq<nat>>, count: int, read: Read)
    requires Paged(made, pages, count) && |pages| == |made| && Continuing(made) && read.offset == |Flatten(pages)|
    ensures InOrder(made + [read], pages, count)
  {
    var longer := made + [read];
    assert longer[..|longer| - 1] == made && pages[..|longer| - 1] == pages;
    forall i | 0 <= i < |pages| ensures PageAt(longer, pages, i, count) { assert PageAt(made, pages, i, count); }
  }

  lemma LastRead(made: seq<Read>, pages: seq<seq<nat>>, count: int, page: seq<nat>, next: Next)
    requires Paged(made, pages, count) && |pages| == |made| && Continuing(made)
    ensures var longer := made + [Read(|Flatten(pages)|, Some(Payload(Some(page), Some(count), next)))];
            && InOrder(longer, pages + [page], count)
            && (next == NoNext ==> Complete(longer, pages + [page], count))
            && (next == NextUrl && page != [] ==> Continuing(longer))
  {
    var longer := made + [Read(|Flatten(pages)|, Some(Payload(Some(page), Some(count), next)))];
    PagedGrows(made, pages, page, count, next);
    assert longer[..|longer| - 1] == made && (pages + [page])[..|longer| - 1] == pages;
    forall i | next == NextUrl && page != [] && 0 <= i < |longer| ensures GoesOn(longer[i]) {
      if i < |made| { assert GoesOn(made[i]); }
    }
  }

  datatype Step = Fail(error: PageError) | Finish(page: seq<nat>) | GoOn(page: seq<nat>, count: nat)

  /** What becomes of one answer after `had` results; `expected` is negative until a count was read. */
  function Judge(answer: Option<Payload>, expected: int, had: nat): (s: Step)
    requires expected <= MAX_POPULATION
    ensures !s.Fail? ==>
              && answer.Some?
              && answer == Some(Payload(Some(s.page), answer.value.count, answer.value.next))
              && answer.value.count.Some? && 0 <= answer.value.count.value <= 10_000
              && (expected >= 0 ==> answer.value.count.value == expected)
  {
    match answer
    case None => Fail(Unavailable)
    case Some(payload) =>
      if payload.results == None || payload.count == None || payload.count.value < 0 then Fail(InvalidSchema)
      else
        var page, count := payload.results.value, payload.count.value;
        if expected < 0 && count > MAX_POPULATION then Fail(TooLarge)
        else if expected >= 0 && count != expected then Fail(Changed)
        else if payload.next == NoNext then (if had + |page| != count then Fail(Incomplete) else Finish(page))
        else if payload.next != NextUrl || page == [] || had + |page| >= count then Fail(InvalidPagination)
        else GoOn(page, count)
  }

  /** The connection to the server, and every read made on it. */
  class Client {
    var log: seq<Read>

    constructor ()
      ensures log == []
    {
      log := [];
    }

    method Get(offset: nat) returns (answer: Option<Payload>)
      modifies this
      ensures log == old(log) + [Read(offset, answer)]
    {
      answer := *;
      log := log + [Read(offset, answer)];
    }

    /**
     * `_get_all`. It ends whatever is answered. What it returns is the concatenation of the pages read, each
     * at the offset equal to the number of results before it, every page reporting the same count, the
     * last one and only the last announcing no further page, and exactly that many items in all. It makes
     * at most max(1, count) reads, whether it succeeds or not. Where every answer is a page of one
     * population the result is that population, or that it is too large.
     */
    method GetAll(ghost population: seq<nat>)
      returns (res: Result<seq<nat>, PageError>, ghost made: seq<Read>, ghost pages: seq<seq<nat>>, ghost count: int)
      modifies this
      ensures log == old(log) + made && InOrder(made, pages, count)
      ensures |made| <= if count > 1 then count else 1
      ensures count <= 10_000
      ensures res.Ok? ==>
                Complete(made, pages, count) && res.value == Flatten(pages) && |res.value| == count <= 10_000
      ensures res.Err? ==>
                var last := made[|made| - 1].answer;
                Judge(last, if pages == [] then -1 else count, |Flatten(pages)|) == Fail(res.error)
      ensures Served(population, made) ==>
                res == if |population| <= 10_000 then Ok(population) else Err(TooLarge)
    {
      var expected, results := -1, [];
      made, pages, count := [], [], 0;
      while true
        invariant log == old(log) + made && |pages| == |made|
        invariant results == Flatten(pages) && Paged(made, pages, count) && Continuing(made)
        invariant if expected < 0 then pages == [] && expected == -1 && count == 0
                  else expected == count && |results| < expected <= MAX_POPULATION && pages != []
        invariant Served(population, made) ==> results <= population && (expected >= 0 ==> expected == |population|)
        decreases if expected < 0 then MAX_POPULATION + 1 else expected - |results|
      {
        PagesCount(made, pages, count);
        var answer := Get(|results|);
        ghost var earlier, read := made, Read(|results|, answer);
        made := made + [read];
        NextRead(earlier, pages, count, read);
        ServedEarlier(population, earlier, read);
        var step := Judge(answer, expected, |results|);
        if Served(population, made) { ServedStep(population, results, answer, expected); }
        if step.Fail? { return Err(step.error), made, pages, count; }
        count := answer.value.count.value;
        FlattenOneMore(pages, step.page);
        LastRead(earlier, pages, count, step.page, answer.value.next);
        results, pages := results + step.page, pages + [step.page];
        if step.Finish? { return Ok(results), made, pages, count; }
        expected := step.count;
      }
    }
  }

  // ---------------------------------------------------------------- a consistent server

  /** An answer that a server of this population may give at this offset, with any non-empty page size. */
  ghost predicate GoodPage(population: seq<nat>, offset: nat, answer: Option<Payload>) {
    && answer.Some? && answer.value.count == Some(|population|) && answer.value.results.Some?
    && offset <= |population|
    && var page := answer.value.results.value;
       && page <= population[offset..]
       && (offset < |population| ==> page != [])
       && answer.value.next == (if offset + |page| == |population| then NoNext else NextUrl)
  }

  /** Whatever the page sizes, each answer continues the population where it was asked to. */
  ghost predicate Served(population: seq<nat>, made: seq<Read>) {
    forall i {:trigger ServedAt(population, made, i)} | 0 <= i < |made| :: ServedAt(population, made, i)
  }

  ghost predicate ServedAt(population: seq<nat>, made: seq<Read>, i: nat)
    requires i < |made|
  {
    GoodPage(population, made[i].offset, made[i].answer)
  }

  lemma ServedEarlier(population: seq<nat>, made: seq<Read>, read: Read)
    ensures Served(population, made + [read]) <==>
              Served(population, made) && GoodPage(population, read.offset, read.answer)
  {
    var longer := made + [read];
    if Served(population, longer) {
      assert ServedAt(population, longer, |made|);
      forall i | 0 <= i < |made| ensures ServedAt(population, made, i) { assert ServedAt(population, longer, i); }
    }
    if Served(population, made) && GoodPage(population, read.offset, read.answer) {
      forall i | 0 <= i < |longer| ensures ServedAt(population, longer, i) {
        if i < |made| { assert ServedAt(population, made, i); }
      }
    }
  }

  lemma ServedStep(population: seq<nat>, results: seq<nat>, answer: Option<Payload>, expected: int)
    requires results <= population && GoodPage(population, |results|, answer)
    requires expected == -1 || expected == |population| <= MAX_POPULATION
    ensures var s := Judge(answer, expected, |results|);
            if |population| > 10_000 then s == Fail(TooLarge)
            else !s.Fail? && results + s.page <= population
                 && (s.Finish? <==> results + s.page == population)
                 && (s.GoOn? ==> s.count == |population|)
  {
    assert population == population[..|results|] + population[|results|..];
  }
}
