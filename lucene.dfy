/** The parts of Lucene the field type hands its results to: the two token
    filters applied to auxiliary fields, the field record, and a boolean query
    that collects clauses. */
module Lucene {
  import opened Wrappers

  predicate NoDuplicates(s: seq<string>)
  {
    forall i, j :: 0 <= i < j < |s| ==> s[i] != s[j]
  }

  /** `LengthFilter(false, input, min, max)`: keeps the tokens whose length
      lies in `[min, max]`, in order. */
  function LengthFilter(tokens: seq<string>, min: int, max: int): (r: seq<string>)
    ensures forall t :: t in r <==> t in tokens && min <= |t| <= max
    ensures |r| <= |tokens|
  {
    if tokens == [] then []
    else
      var rest := LengthFilter(tokens[1..], min, max);
      if min <= |tokens[0]| <= max then [tokens[0]] + rest else rest
  }

  /** `RemoveDuplicatesTokenFilter`: every token once, at its first occurrence. */
  function RemoveDuplicates(tokens: seq<string>): (r: seq<string>)
    ensures forall t :: t in r <==> t in tokens
    ensures NoDuplicates(r)
    ensures |r| <= |tokens|
  {
    if tokens == [] then []
    else
      var kept := RemoveDuplicates(tokens[..|tokens| - 1]);
      var last := tokens[|tokens| - 1];
      assert tokens == tokens[..|tokens| - 1] + [last];
      if last in kept then kept else kept + [last]
  }

  /** An indexed field as the field type builds it: a name, whether the
      schema stores it, its string value (null for the auxiliary fields) and
      the tokens its token stream yields. */
  datatype Field = Field(name: string, stored: bool, value: Option<string>, tokens: seq<string>)

  datatype Occur = Should | Must | MustNot

  /** A clause that matches the documents having one of `terms` in `field`,
      with an optional boost (absent means Lucene's neutral boost). */
  datatype BooleanClause = BooleanClause(occur: Occur, field: string, terms: seq<string>, boost: Option<int>)

  /** A boolean query collecting clauses in order. */
  class BooleanQuery {
    var disableCoord: bool
    var clauses: seq<BooleanClause>

    constructor (disableCoord: bool)
      ensures this.disableCoord == disableCoord && clauses == []
    {
      this.disableCoord := disableCoord;
      clauses := [];
    }

    /** `add`: refuses (`TooManyClauses`) once the query already holds
        `maxClauseCount` clauses. */
    method Add(clause: BooleanClause, maxClauseCount: nat) returns (ok: bool)
      modifies this
      ensures ok == (|old(clauses)| < maxClauseCount)
      ensures clauses == if ok then old(clauses) + [clause] else old(clauses)
      ensures disableCoord == old(disableCoord)
    {
      ok := |clauses| < maxClauseCount;
      if ok {
        clauses := clauses + [clause];
      }
    }
  }
}
