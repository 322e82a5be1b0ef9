/**
 * The persisted-query table of src/index.js: a constant object literal mapping
 * short query ids to GraphQL document text. It is built once when the module is
 * loaded and only read afterwards.
 */
module QueryTable {
  import opened Wrappers

  /** One property `key: value` of an object literal. */
  datatype Property<K, V> = Property(key: K, value: V)

  /** The text of the template literal stored under "a" (leading newline and trailing indent included). */
  const DocumentA: string :=
    "\n    query A {\n      books {\n        title\n        author\n      }\n    }\n  "

  /** The text of the template literal stored under "b". */
  const DocumentB: string :=
    "\n    query B {\n      books {\n        author\n      }\n    }\n  "

  /** The properties of the literal, in declaration order. */
  const Literal: seq<Property<string, string>> := [Property("a", DocumentA), Property("b", DocumentB)]

  /** Some property of `properties` has the key `k`. */
  ghost predicate Defines<K, V>(properties: seq<Property<K, V>>, k: K)
  {
    exists i :: 0 <= i < |properties| && properties[i].key == k
  }

  /** No property of `properties` after position `i` has the same key as position `i`. */
  ghost predicate IsLastDefinition<K, V>(properties: seq<Property<K, V>>, i: int)
    requires 0 <= i < |properties|
  {
    forall j :: i < j < |properties| ==> properties[j].key != properties[i].key
  }

  /**
   * Evaluates an object literal: the properties are defined one after the other,
   * so a later property with an already-defined key overwrites the earlier one.
   */
  function ObjectFromLiteral<K, V>(properties: seq<Property<K, V>>): map<K, V>
  {
    if properties == [] then map[]
    else map[properties[0].key := properties[0].value] + ObjectFromLiteral(properties[1..])
  }

  /** The object has a key for every key the literal defines, and no other. */
  lemma {:induction false} LiteralKeys<K, V>(properties: seq<Property<K, V>>, k: K)
    ensures k in ObjectFromLiteral(properties) <==> Defines(properties, k)
  {
    if properties != [] {
      var tail := properties[1..];
      LiteralKeys(tail, k);
      if Defines(tail, k) {
        var j :| 0 <= j < |tail| && tail[j].key == k;
        assert properties[j + 1].key == k;
      }
      if Defines(properties, k) && k != properties[0].key {
        var i :| 0 <= i < |properties| && properties[i].key == k;
        assert tail[i - 1].key == k;
      }
    }
  }

  /** Each key holds the value of its last definition in the literal. */
  lemma {:induction false} LastDefinitionWins<K, V>(properties: seq<Property<K, V>>, i: int)
    requires 0 <= i < |properties| && IsLastDefinition(properties, i)
    ensures properties[i].key in ObjectFromLiteral(properties)
    ensures ObjectFromLiteral(properties)[properties[i].key] == properties[i].value
  {
    var tail := properties[1..];
    if i == 0 {
      LiteralKeys(tail, properties[0].key);
    } else {
      assert tail[i - 1] == properties[i];
      assert IsLastDefinition(tail, i - 1);
      LastDefinitionWins(tail, i - 1);
    }
  }

  /** The table `queryMap`, the value of the literal. */
  const QueryMap: map<string, string> := ObjectFromLiteral(Literal)

  /**
   * `queryMap[id]`: the document registered under `id`, or `undefined` (None)
   * when the table has no such key.
   */
  function Lookup(id: string): (r: Option<string>)
    ensures r.Some? <==> id == "a" || id == "b"
    ensures id == "a" ==> r == Some(DocumentA)
    ensures id == "b" ==> r == Some(DocumentB)
  {
    QueryMapContents();
    if id in QueryMap then Some(QueryMap[id]) else None
  }

  /** The table holds exactly the keys "a" and "b", with the two documents of the literal. */
  lemma QueryMapContents()
    ensures QueryMap.Keys == {"a", "b"}
    ensures QueryMap["a"] == DocumentA && QueryMap["b"] == DocumentB
  {
    assert IsLastDefinition(Literal, 0) && IsLastDefinition(Literal, 1);
    LastDefinitionWins(Literal, 0);
    LastDefinitionWins(Literal, 1);
    forall k | k in QueryMap
      ensures k == "a" || k == "b"
    {
      LiteralKeys(Literal, k);
    }
  }

  /** The two persisted documents differ, so the two ids select different queries. */
  lemma DocumentsDistinct()
    ensures Lookup("a") != Lookup("b")
  {
  }
}
