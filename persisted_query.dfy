/**
 * The persisted-query middleware `persistedQueryParser` of src/index.js. It runs
 * on every request to the GraphQL endpoint. When the URL query parameters carry
 * a truthy `id`, it overwrites the `query` parameter, in place, with the table's
 * text for that id (`undefined` when the id is unknown); then, on every path, it
 * hands the request on with `next()`.
 */
module PersistedQuery {
  import opened Wrappers
  import QueryTable

  /** The parameters of a request other than `id` and `query`, by name. */
  type OtherParams = m: map<string, string> | "id" !in m && "query" !in m witness map[]

  /**
   * The URL query parameters of a request (`req.query`): the `id` parameter, the
   * `query` parameter, and every other parameter by name.
   */
  datatype Params = Params(id: Option<string>, query: Option<string>, others: OtherParams)

  /** JavaScript truthiness of `req.query.id`: present and not the empty string. */
  predicate HasPersistedId(id: Option<string>)
  {
    id.Some? && id.value != ""
  }

  /**
   * The parameters after the middleware has run. Only `query` can change, and it
   * changes only when the id is truthy; it then holds what the table gives for
   * the id, whatever `query` held before.
   */
  function Rewrite(p: Params): (r: Params)
    ensures r.id == p.id && r.others == p.others
    ensures !HasPersistedId(p.id) ==> r == p
    ensures HasPersistedId(p.id) ==> r.query == QueryTable.Lookup(p.id.value)
  {
    if HasPersistedId(p.id) then p.(query := QueryTable.Lookup(p.id.value)) else p
  }

  /** An id of the table makes `query` that id's document text. */
  lemma KnownIdSelectsDocument(p: Params)
    requires p.id.Some? && p.id.value in QueryTable.QueryMap
    ensures Rewrite(p).query == Some(QueryTable.QueryMap[p.id.value])
  {
    QueryTable.QueryMapContents();
  }

  /** A non-empty id the table lacks leaves `query` absent; the request is still passed on. */
  lemma UnknownIdClearsQuery(p: Params)
    requires HasPersistedId(p.id) && p.id.value !in QueryTable.QueryMap
    ensures Rewrite(p).query == None
    ensures Rewrite(p).id == p.id && Rewrite(p).others == p.others
  {
    QueryTable.QueryMapContents();
  }

  /**
   * The persisted lookup wins over a literal query: with a truthy id, the query
   * supplied with the request has no influence on the result; without one, the
   * literal query is kept as it is.
   */
  lemma IdOverridesLiteralQuery(p: Params, literal: Option<string>)
    ensures HasPersistedId(p.id) ==> Rewrite(p.(query := literal)) == Rewrite(p)
    ensures !HasPersistedId(p.id) ==> Rewrite(p.(query := literal)).query == literal
  {
  }

  /** An absent or empty id leaves every parameter as it was. */
  lemma FalsyIdLeavesRequestUnchanged(p: Params)
    requires p.id == None || p.id == Some("")
    ensures Rewrite(p) == p
  {
  }

  /**
   * The middleware changes a request exactly when it carries a truthy id whose
   * table entry differs from the query it already holds.
   */
  lemma RewriteChangesExactly(p: Params)
    ensures Rewrite(p) != p <==> HasPersistedId(p.id) && p.query != QueryTable.Lookup(p.id.value)
  {
    if HasPersistedId(p.id) && p.query != QueryTable.Lookup(p.id.value) {
      assert Rewrite(p).query != p.query;
    }
  }

  /** Running the middleware a second time changes nothing. */
  lemma RewriteIdempotent(p: Params)
    ensures Rewrite(Rewrite(p)) == Rewrite(p)
  {
  }

  /**
   * A request naming a persisted id reaches the next stage with the same `query`
   * and other parameters as a request that carries the document text and no id.
   * A request carrying both that id and the text is rewritten into the same
   * parameters, and is passed on untouched.
   */
  lemma PersistedMatchesLiteral(p: Params)
    requires p.id.Some? && p.id.value in QueryTable.QueryMap
    ensures var textOnly := Params(None, Some(QueryTable.QueryMap[p.id.value]), p.others);
            Rewrite(p).query == Rewrite(textOnly).query && Rewrite(p).others == Rewrite(textOnly).others
    ensures var literal := p.(query := Some(QueryTable.QueryMap[p.id.value]));
            Rewrite(p) == Rewrite(literal) == literal
  {
    QueryTable.QueryMapContents();
  }

  /** The shared request object whose URL query parameters the middleware updates in place. */
  class Request {
    var id: Option<string>
    var query: Option<string>
    var others: OtherParams

    constructor (params: Params)
      ensures View() == params
    {
      id, query, others := params.id, params.query, params.others;
    }

    /** The current parameters as a value. */
    function View(): Params
      reads this
    {
      Params(id, query, others)
    }

    /**
     * `persistedQueryParser(req, res, next)`: rewrites `query` from the table when
     * `id` is truthy, then calls the continuation. `passedOn` records, for each
     * call of `next()`, the parameters the request holds at that call, which is
     * what the next stage of the pipeline sees.
     */
    method PersistedQueryParser() returns (passedOn: seq<Params>)
      modifies this
      ensures View() == Rewrite(old(View()))
      ensures passedOn == [Rewrite(old(View()))]
    {
      passedOn := [];
      if HasPersistedId(id) {
        query := QueryTable.Lookup(id.value);
      }
      passedOn := passedOn + [View()];
    }
  }

  /** What a caller can conclude from the middleware's contract alone. */
  method Scenarios(others: OtherParams)
  {
    var literal := Some("{ books { title } }");

    var known := new Request(Params(Some("b"), literal, others));
    var passedOn := known.PersistedQueryParser();
    assert |passedOn| == 1 && passedOn[0].query == Some(QueryTable.DocumentB) && passedOn[0].others == others;

    var unknown := new Request(Params(Some("c"), literal, others));
    passedOn := unknown.PersistedQueryParser();
    assert |passedOn| == 1 && passedOn[0].query == None && passedOn[0].id == Some("c");

    var empty := new Request(Params(Some(""), literal, others));
    passedOn := empty.PersistedQueryParser();
    assert passedOn == [Params(Some(""), literal, others)] && empty.View() == passedOn[0];

    passedOn := known.PersistedQueryParser();
    assert |passedOn| == 1 && known.query == Some(QueryTable.DocumentB);
  }
}
