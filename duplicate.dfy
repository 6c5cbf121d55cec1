/**
 * The link extraction of duplicate.js: the `link` field of every scraped
 * record, in record order, with absent and empty links dropped.
 *
 * The file read and the JSON parse are outside the model: the records arrive
 * as the result of that read, which may have failed.
 */
module Duplicate {
  import opened Wrappers

  /**
   * A scraped record; the extraction consults only its `link`, which is
   * `None` when the field is absent or `null`. A record that is a number, a
   * string or a boolean has no `link` property and is `Entity(None)`.
   */
  datatype Entity = Entity(link: Option<string>)

  /**
   * The parsed file. `NotEntityList` is a parsed value on which
   * `jsonArray.map((entity) => entity.link)` throws: a value that is not an
   * array, or an array holding `null`.
   */
  datatype LinksFile = EntityList(entities: seq<Entity>) | NotEntityList

  /** JavaScript truthiness of a link: present and not the empty string. */
  predicate Truthy(link: Option<string>) {
    link.Some? && link.value != ""
  }

  /** `jsonArray.map((entity) => entity.link).filter((link) => link)`. */
  function Links(entities: seq<Entity>): (links: seq<string>)
    ensures |links| <= |entities|
  {
    if entities == [] then []
    else
      (if Truthy(entities[0].link) then [entities[0].link.value] else []) + Links(entities[1..])
  }

  /**
   * Each non-empty link is returned once for every record that carries it,
   * so nothing is deduplicated; the empty link is never returned.
   */
  lemma {:induction false} LinksCount(entities: seq<Entity>, l: string)
    ensures multiset(Links(entities))[l] == if l == "" then 0 else multiset(entities)[Entity(Some(l))]
    ensures l in Links(entities) <==> l != "" && Entity(Some(l)) in entities
  {
    if entities != [] {
      assert entities == [entities[0]] + entities[1..];
      LinksCount(entities[1..], l);
    }
  }

  /** No link is returned exactly when no record has a non-empty link. */
  lemma {:induction false} LinksEmpty(entities: seq<Entity>)
    ensures Links(entities) == [] <==> forall i :: 0 <= i < |entities| ==> !Truthy(entities[i].link)
  {
    if entities != [] {
      LinksEmpty(entities[1..]);
      assert forall i :: 1 <= i < |entities| ==> entities[1..][i - 1] == entities[i];
    }
  }

  /** Record order is kept: the links of two record lists put together are those of each, in turn. */
  lemma {:induction false} LinksAppend(a: seq<Entity>, b: seq<Entity>)
    ensures Links(a + b) == Links(a) + Links(b)
  {
    if a != [] {
      var head := if Truthy(a[0].link) then [a[0].link.value] else [];
      assert (a + b)[0] == a[0] && (a + b)[1..] == a[1..] + b;
      LinksAppend(a[1..], b);
      calc {
        Links(a + b);
        head + Links(a[1..] + b);
        head + (Links(a[1..]) + Links(b));
        (head + Links(a[1..])) + Links(b);
      }
    } else {
      assert a + b == b;
    }
  }

  /**
   * The record at position `i` contributes its link exactly there, between the
   * links of the records before it and those of the records after it.
   */
  lemma LinksContribution(entities: seq<Entity>, i: nat)
    requires i < |entities|
    ensures Links(entities) ==
      Links(entities[..i]) + (if Truthy(entities[i].link) then [entities[i].link.value] else []) + Links(entities[i + 1..])
  {
    var e := entities[i];
    assert entities == entities[..i] + ([e] + entities[i + 1..]);
    LinksAppend(entities[..i], [e] + entities[i + 1..]);
    LinksAppend([e], entities[i + 1..]);
    assert [e][1..] == [];
  }

  /** A record with no link (`[1, {"link": "a"}]`, say) and a record with an empty link are skipped. */
  lemma LinksExample(l: string)
    requires l != ""
    ensures Links([Entity(None), Entity(Some(l)), Entity(Some("")), Entity(Some(l))]) == [l, l]
  {
    var es := [Entity(None), Entity(Some(l)), Entity(Some("")), Entity(Some(l))];
    assert es[1..] == [Entity(Some(l)), Entity(Some("")), Entity(Some(l))];
    assert es[1..][1..] == [Entity(Some("")), Entity(Some(l))];
    assert es[1..][1..][1..] == [Entity(Some(l))];
    assert [Entity(Some(l))][1..] == [];
    assert Links([Entity(Some(l))]) == [l];
    assert Links([Entity(Some("")), Entity(Some(l))]) == [l];
    assert Links(es[1..]) == [l, l];
  }

  /**
   * `getLinksFromFile` once the file has been read and parsed: the links of
   * the records, or no value (`undefined`) when the read, the parse or the map
   * over the parsed value threw.
   */
  function GetLinksFromFile(contents: Result<LinksFile, string>): (r: Option<seq<string>>)
    ensures r.None? <==> contents.Failure? || contents.value.NotEntityList?
    ensures r.Some? ==> r.value == Links(contents.value.entities)
    ensures r.Some? ==> |r.value| <= |contents.value.entities|
    ensures r.Some? ==> forall l :: l in r.value ==> l != "" && Entity(Some(l)) in contents.value.entities
  {
    match contents
    case Failure(_) => None
    case Success(NotEntityList) => None
    case Success(EntityList(entities)) =>
      assert forall l :: l in Links(entities) ==> l != "" && Entity(Some(l)) in entities by {
        forall l ensures l in Links(entities) ==> l != "" && Entity(Some(l)) in entities {
          LinksCount(entities, l);
        }
      }
      Some(Links(entities))
  }
}
