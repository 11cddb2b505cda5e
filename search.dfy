/** The explore-table search of `filterExploreTable`: the input is lower-cased
    and trimmed, and a car park is kept when its lower-cased number or address
    contains that term. */
module Search {
  import opened Seqs
  import opened JsStrings
  import opened Carparks

  /** `input.toLowerCase().trim()`. */
  function SearchTerm(input: string): string {
    Trim(ToLower(input))
  }

  /** The filter callback: the number or the address, lower-cased, includes the term. */
  predicate Matches(c: Carpark, term: string) {
    Includes(ToLower(c.id), term) || Includes(ToLower(c.address), term)
  }

  /** The car parks that match `term`, in list order. */
  function FilterCarparks(all: seq<Carpark>, term: string): seq<Carpark> {
    Filter(all, (c: Carpark) => Matches(c, term))
  }

  /** The result holds every matching car park as often as the list does, no
      other, and in the list's order. */
  lemma FilterCarparksSpec(all: seq<Carpark>, term: string, a: seq<Carpark>, b: seq<Carpark>)
    ensures forall c :: multiset(FilterCarparks(all, term))[c] == if Matches(c, term) then multiset(all)[c] else 0
    ensures FilterCarparks(a + b, term) == FilterCarparks(a, term) + FilterCarparks(b, term)
  {
    forall c ensures multiset(FilterCarparks(all, term))[c] == if Matches(c, term) then multiset(all)[c] else 0 {
      FilterCount(all, (c: Carpark) => Matches(c, term), c);
    }
    FilterAppend(a, b, (c: Carpark) => Matches(c, term));
  }

  /** A blank search (only white space) keeps every car park. */
  lemma BlankSearchKeepsAll(all: seq<Carpark>, input: string)
    requires forall i :: 0 <= i < |input| ==> IsSpace(input[i])
    ensures FilterCarparks(all, SearchTerm(input)) == all
  {
    TrimLower(input);
    TrimOfBlank(input);
    forall c | c in all ensures Matches(c, SearchTerm(input)) {
      IncludesTrivial(ToLower(c.id));
    }
    FilterKeepsAll(all, (c: Carpark) => Matches(c, SearchTerm(input)));
  }

  /** Searching for a car park's number, in any ASCII letter case and with
      white space around it, finds that car park (the merge stores numbers
      already trimmed). */
  lemma SearchFindsNumber(all: seq<Carpark>, i: int, input: string)
    requires 0 <= i < |all|
    requires ToLower(Trim(input)) == ToLower(all[i].id)
    ensures all[i] in FilterCarparks(all, SearchTerm(input))
  {
    TrimLower(input);
    IncludesTrivial(ToLower(all[i].id));
    FilterCount(all, (c: Carpark) => Matches(c, SearchTerm(input)), all[i]);
  }

  /** The search ignores the ASCII letter case of the input. */
  lemma SearchIgnoresCase(all: seq<Carpark>, input: string)
    ensures FilterCarparks(all, SearchTerm(ToLower(input))) == FilterCarparks(all, SearchTerm(input))
  {
    ToLowerIdempotent(input);
  }
}
