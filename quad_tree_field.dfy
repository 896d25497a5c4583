/** The Solr field type that indexes shapes as quad-tree cell tokens and
    turns a query shape into weighted clauses over per-level fields. */
module Solr {
  import opened Wrappers
  import opened JavaText
  import opened Lucene
  import opened Quads
  import opened QuadTreeSpec

  class QuadTreeField {
    /** The grid; absent until `Init` completes. */
    var grid: Option<SpatialGrid>
    /** The auxiliary field-name prefix; null unless configured. */
    var fprefix: Option<string>
    /** One auxiliary field per resolution, in configuration order. */
    var resolutions: array<int8>

    /** The field type as the schema creates it, before `Init`. */
    constructor ()
      ensures grid == None && fprefix == None && resolutions.Length == 0
    {
      grid := None;
      fprefix := None;
      resolutions := new int8[0];
    }

    /** Reads `resolutions` and, when it is given, `prefix` from the schema
        arguments (removing them), then fixes the grid. A resolution that is
        not a byte raises at once; a missing prefix raises once the
        resolutions are in place. */
    method Init(args: map<string, string>) returns (rest: map<string, string>, outcome: Outcome<InitError>)
      modifies this
      ensures outcome.Pass? <==> ParseSettings(args).Success?
      ensures outcome.Fail? ==> outcome.error == ParseSettings(args).error
      ensures grid == if outcome.Pass? then Some(DefaultGrid) else old(grid)
      ensures ResolutionsKey !in args ==>
                rest == args && resolutions == old(resolutions) && fprefix == old(fprefix)
      ensures ResolutionsKey in args ==>
                var parsed := ParseResolutions(args[ResolutionsKey]);
                && fresh(resolutions)
                && resolutions.Length == |Tokenize(args[ResolutionsKey], ListDelims)|
                && (parsed.Success? ==>
                      && resolutions[..] == parsed.value
                      && fprefix == (if PrefixKey in args then Some(args[PrefixKey]) else None)
                      && rest == args - {ResolutionsKey, PrefixKey})
                && (parsed.Failure? ==> fprefix == old(fprefix) && rest == args - {ResolutionsKey})
      ensures outcome.Pass? && ResolutionsKey in args ==> fprefix.Some?
    {
      rest := args - {ResolutionsKey};
      if ResolutionsKey in args {
        var ok := ReadResolutions(Tokenize(args[ResolutionsKey], ListDelims));
        if !ok {
          outcome := Fail(ParseResolutions(args[ResolutionsKey]).error);
          return;
        }
        fprefix := if PrefixKey in rest then Some(rest[PrefixKey]) else None;
        rest := rest - {PrefixKey};
        if fprefix.None? {
          outcome := Fail(MissingPrefix);
          return;
        }
      }
      grid := Some(DefaultGrid);
      outcome := Pass;
    }

    /** The parse loop of `Init`: a fresh array with one byte per token,
        filled in order until a token is not a byte (which raises at once). */
    method ReadResolutions(tokens: seq<string>) returns (ok: bool)
      modifies this
      ensures fresh(resolutions) && resolutions.Length == |tokens|
      ensures ok <==> ParseBytes(tokens).Success?
      ensures ok ==> resolutions[..] == ParseBytes(tokens).value
      ensures grid == old(grid) && fprefix == old(fprefix)
    {
      resolutions := new int8[|tokens|];
      var i := 0;
      while i < |tokens|
        invariant 0 <= i <= |tokens|
        invariant fresh(resolutions) && resolutions.Length == |tokens|
        invariant ParseBytes(tokens[..i]) == Success(resolutions[..i])
        invariant grid == old(grid) && fprefix == old(fprefix)
      {
        assert tokens[..i + 1][..i] == tokens[..i];
        var b := ParseByte(tokens[i]);
        if b.None? {
          ParseBytesFailsFrom(tokens, i + 1);
          return false;
        }
        resolutions[i] := b.value;
        assert resolutions[..i + 1] == resolutions[..i] + [b.value];
        i := i + 1;
      }
      assert tokens[..i] == tokens && resolutions[..i] == resolutions[..];
      return true;
    }

    /** The primary field and one auxiliary field per resolution for
        `externalVal`: a raw literal is used as it is, anything else is parsed
        into a shape and matched against the grid. */
    method CreateFields(field: SchemaField, externalVal: string, env: Env) returns (r: Result<array<Field>, SolrError>)
      requires grid.Some?
      ensures var layout := FieldLayout(field, externalVal, resolutions[..], fprefix, grid.value, env);
              && (r.Success? <==> layout.Success?)
              && (r.Failure? ==> r.error == layout.error)
              && (r.Success? ==> fresh(r.value) && r.value[..] == layout.value)
    {
      var fields := new Field[1 + resolutions.Length];
      fields[0] := Field(field.name, field.stored, None, []);
      if IsRawLiteral(externalVal) {
        fields[0] := fields[0].(value := Some(externalVal), tokens := env.quadCells(externalVal));
        FillAuxFields(fields, env.quadCells(externalVal));
      } else {
        var parsed := env.parseShape(externalVal);
        if parsed.Failure? {
          return Failure(BadRequest(ShapeParse(parsed.error)));
        }
        var matched := env.read(grid.value, parsed.value);
        if field.stored {
          fields[0] := fields[0].(value := Some(ListToString(matched.tokens)));
        }
        fields[0] := fields[0].(tokens := matched.tokens);
        FillAuxFields(fields, matched.tokens);
      }
      r := Success(fields);
    }

    /** Fills slots 1 to `resolutions.Length` with the auxiliary fields over
        `tokens`, leaving slot 0 alone. */
    method FillAuxFields(fields: array<Field>, tokens: seq<string>)
      requires fields.Length == 1 + resolutions.Length
      requires fields[0].tokens == tokens
      modifies fields
      ensures fields[..] == WithAuxFields(old(fields[0]), resolutions[..], fprefix)
    {
      ghost var expected := WithAuxFields(fields[0], resolutions[..], fprefix);
      var i := 1;
      while i <= resolutions.Length
        invariant 1 <= i <= resolutions.Length + 1
        invariant fields[..i] == expected[..i]
      {
        fields[i] := AuxField(fprefix, resolutions[i - 1], tokens);
        assert fields[..i + 1] == expected[..i + 1];
        i := i + 1;
      }
      assert fields[..] == fields[..i];
    }

    /** Range queries are not supported. */
    function GetRangeQuery(part1: string, part2: string, minInclusive: bool, maxInclusive: bool)
      : (r: Result<seq<BooleanClause>, SolrError>)
      ensures r.Failure? && r.error == Unsupported
    {
      Failure(Unsupported)
    }

    /** The query for `externalVal`, read as "mostly within": one SHOULD
        clause per level with intersecting cells and one, boosted, per level
        with covered cells. */
    method GetFieldQuery(field: SchemaField, externalVal: string, env: Env) returns (r: Result<BooleanQuery, SolrError>)
      requires grid.Some?
      ensures var spec := FieldQuery(externalVal, fprefix, grid.value, env);
              && (r.Success? <==> spec.Success?)
              && (r.Failure? ==> r.error == spec.error)
              && (r.Success? ==> fresh(r.value) && r.value.disableCoord && r.value.clauses == spec.value)
    {
      var parsed := env.parseShape(externalVal);
      if parsed.Failure? {
        return Failure(BadRequest(ShapeParse(parsed.error)));
      }
      var matched := env.read(grid.value, parsed.value);
      var qmatch := env.mostlyWithin(matched.tokens);
      var depth := |matched.levels|;
      var levels := qmatch.levels;

      var query := new BooleanQuery(true);
      var i := 0;
      while i < |levels|
        invariant 0 <= i <= |levels|
        invariant fresh(query) && query.disableCoord
        invariant query.clauses == QueryClauses(fprefix, levels[..i], depth)
        invariant |query.clauses| <= env.maxClauseCount
      {
        QueryClausesStep(fprefix, levels, i, depth);
        QueryClausesPrefixLength(fprefix, levels, i + 1, depth);
        var ok := AddLevelClauses(query, levels[i], depth, env.maxClauseCount);
        if !ok {
          return Failure(BadRequest(TooManyClauses));
        }
        i := i + 1;
      }
      assert levels[..i] == levels;
      return Success(query);
    }

    /** Adds the clauses of one level to `query`: the intersects clause when
        the level has intersecting cells, then the covers clause when it has
        covered cells. Fails, as `BooleanQuery.add` does, once the query would
        grow past `maxClauseCount`; the clauses added before the refused one
        stay in the query, which the caller then discards. */
    method AddLevelClauses(query: BooleanQuery, level: LevelMatchInfo, depth: int, maxClauseCount: nat)
      returns (ok: bool)
      requires |query.clauses| <= maxClauseCount
      modifies query
      ensures query.disableCoord == old(query.disableCoord)
      ensures ok <==> |old(query.clauses) + LevelClauses(fprefix, level, depth)| <= maxClauseCount
      ensures ok ==> query.clauses == old(query.clauses) + LevelClauses(fprefix, level, depth)
      ensures !ok ==> query.clauses == old(query.clauses)
                        + LevelClauses(fprefix, level, depth)[..maxClauseCount - |old(query.clauses)|]
    {
      ok := true;
      if |level.intersects| > 0 {
        ok := query.Add(IntersectsClause(fprefix, level), maxClauseCount);
      }
      if ok && |level.covers| > 0 {
        ok := query.Add(CoverClause(fprefix, level, depth), maxClauseCount);
      }
    }

    /** Generic spatial queries are not supported. */
    function CreateSpatialQuery(): (r: Result<seq<BooleanClause>, SolrError>)
      ensures r.Failure? && r.error == Unsupported
    {
      Failure(Unsupported)
    }

    /** Sorting on the field is a rejected request naming the field. */
    function GetSortField(field: SchemaField, top: bool): (r: Result<bool, SolrError>)
      ensures r.Failure? && r.error.BadRequest?
      ensures r.error.cause == Message("Sorting not supported on QuadTreeField " + field.name)
    {
      Failure(BadRequest(Message("Sorting not supported on QuadTreeField " + field.name)))
    }
  }

  /** Once a byte fails to parse, every longer run of tokens fails too, on
      the same token. */
  lemma {:induction false} ParseBytesFailsFrom(tokens: seq<string>, n: nat)
    requires 0 < n <= |tokens|
    requires ParseBytes(tokens[..n - 1]).Success? && ParseByte(tokens[n - 1]).None?
    ensures ParseBytes(tokens) == Failure(NumberFormat(tokens[n - 1]))
  {
    if n < |tokens| {
      assert tokens[..|tokens| - 1][..n - 1] == tokens[..n - 1];
      ParseBytesFailsFrom(tokens[..|tokens| - 1], n);
    } else {
      assert tokens[..n - 1] == tokens[..|tokens| - 1];
    }
  }
}
