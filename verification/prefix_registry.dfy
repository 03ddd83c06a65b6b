/**
  The IRI prefix registry: a two-way map between short aliases such as
  `owl` and namespace URIs, stored without a trailing `#`.
 */
module PrefixRegistry {
  import opened Wrappers

  datatype Registry = Registry(aliasToUri: map<string, string>, uriToAlias: map<string, string>)

  /** Drops one trailing `#`. */
  function StripHash(uri: string): (r: string)
    requires |uri| > 0
    ensures uri[|uri| - 1] == '#' ==> r + "#" == uri
    ensures uri[|uri| - 1] != '#' ==> r == uri
  {
    if uri[|uri| - 1] == '#' then uri[..|uri| - 1] else uri
  }

  /** The alias registered for the URI without its trailing `#`. */
  function UriToAlias(reg: Registry, uri: string): (r: Option<string>)
    requires |uri| > 0
    ensures r.Some? <==> StripHash(uri) in reg.uriToAlias
    ensures r.Some? ==> r.value == reg.uriToAlias[StripHash(uri)]
  {
    var x := StripHash(uri);
    if x in reg.uriToAlias then Some(reg.uriToAlias[x]) else None
  }

  /**
    Both maps refer to each other: every alias a URI maps back to is
    itself registered, and every URI an alias maps to has an alias. A
    registry built by `RegisterPrefix` alone always is.
   */
  predicate Linked(reg: Registry) {
    && (forall u :: u in reg.uriToAlias ==> reg.uriToAlias[u] in reg.aliasToUri)
    && (forall a :: a in reg.aliasToUri ==> reg.aliasToUri[a] in reg.uriToAlias)
  }

  /** The registered URI of an alias. */
  function AliasToUri(reg: Registry, alias: string): (r: Option<string>)
    ensures r.Some? <==> alias in reg.aliasToUri
    ensures r.Some? ==> r.value == reg.aliasToUri[alias]
  {
    if alias in reg.aliasToUri then Some(reg.aliasToUri[alias]) else None
  }

  /** In a linked registry, the URI an alias looks up, written with its
      `#`, maps back to an alias. */
  lemma {:induction false} AliasToUriMapsBack(reg: Registry, alias: string)
    requires Linked(reg) && AliasToUri(reg, alias).Some?
    ensures UriToAlias(reg, AliasToUri(reg, alias).value + "#").Some?
  {
    var u := AliasToUri(reg, alias).value;
    assert (u + "#")[..|u|] == u;
  }

  /** The full IRI of an entity: the alias's URI, `#` and the name. */
  function CreateIRI(reg: Registry, alias: string, entity: string): (r: Option<string>)
    ensures r.None? <==> AliasToUri(reg, alias).None?
    ensures r.Some? ==> r.value == AliasToUri(reg, alias).value + "#" + entity
  {
    match AliasToUri(reg, alias)
    case Some(uri) => Some(uri + "#" + entity)
    case None => None
  }

  /** An IRI ends in its entity name, and in a linked registry what comes
      before the name maps back to an alias. */
  lemma {:induction false} CreateIRIMapsBack(reg: Registry, alias: string, entity: string)
    requires CreateIRI(reg, alias, entity).Some?
    ensures var iri := CreateIRI(reg, alias, entity).value;
            && |iri| > |entity| && iri[|iri| - |entity|..] == entity
            && (Linked(reg) ==> UriToAlias(reg, iri[..|iri| - |entity|]).Some?)
  {
    var uri := AliasToUri(reg, alias).value;
    var iri := uri + "#" + entity;
    assert iri[..|iri| - |entity|] == uri + "#";
    assert iri[|iri| - |entity|..] == entity;
  }

  /**
    Records the alias in both directions, overwriting earlier entries of
    either key: afterwards the alias looks up the URI without its `#`,
    the URI looks up the alias, and IRIs under the alias are built on
    that URI; every other alias and every other URI looks up what it did
    before. The last character is
    read, so the URI must not be empty.
   */
  function RegisterPrefix(reg: Registry, prefix: string, uri: string): (r: Registry)
    requires |uri| > 0
    ensures r.aliasToUri == reg.aliasToUri[prefix := StripHash(uri)]
    ensures r.uriToAlias == reg.uriToAlias[StripHash(uri) := prefix]
    ensures AliasToUri(r, prefix) == Some(StripHash(uri))
    ensures UriToAlias(r, uri) == Some(prefix)
    ensures forall e :: CreateIRI(r, prefix, e) == Some(StripHash(uri) + "#" + e)
    ensures forall a {:trigger AliasToUri(r, a)} :: a != prefix ==> AliasToUri(r, a) == AliasToUri(reg, a)
    ensures forall u {:trigger UriToAlias(r, u)} ::
              |u| > 0 && StripHash(u) != StripHash(uri) ==> UriToAlias(r, u) == UriToAlias(reg, u)
  {
    var x := StripHash(uri);
    Registry(reg.aliasToUri[prefix := x], reg.uriToAlias[x := prefix])
  }

  const Empty := Registry(map[], map[])

  const OwlUri := "http://www.w3.org/2002/07/owl"
  const RdfUri := "http://www.w3.org/1999/02/22-rdf-syntax-ns"
  const RdfsUri := "http://www.w3.org/2000/01/rdf-schema"
  const XsdUri := "http://www.w3.org/2001/XMLSchema"
  const DulUri := "http://www.ontologydesignpatterns.org/ont/dul/DUL.owl"

  /** The registry as constructed: the five standard aliases, registered
      in both directions and nothing else. */
  function Default(): (r: Registry)
    ensures AliasToUri(r, "owl") == Some(OwlUri)
    ensures AliasToUri(r, "rdf") == Some(RdfUri)
    ensures AliasToUri(r, "rdfs") == Some(RdfsUri)
    ensures AliasToUri(r, "xsd") == Some(XsdUri)
    ensures AliasToUri(r, "dul") == Some(DulUri)
    ensures r.aliasToUri.Keys == {"owl", "rdf", "rdfs", "xsd", "dul"}
    ensures UriToAlias(r, OwlUri + "#") == Some("owl")
    ensures UriToAlias(r, RdfUri + "#") == Some("rdf")
    ensures UriToAlias(r, RdfsUri + "#") == Some("rdfs")
    ensures UriToAlias(r, XsdUri + "#") == Some("xsd")
    ensures UriToAlias(r, DulUri + "#") == Some("dul")
    ensures r.uriToAlias.Keys == {OwlUri, RdfUri, RdfsUri, XsdUri, DulUri}
  {
    var r1 := RegisterPrefix(Empty, "owl", OwlUri);
    var r2 := RegisterPrefix(r1, "rdf", RdfUri);
    var r3 := RegisterPrefix(r2, "rdfs", RdfsUri);
    var r4 := RegisterPrefix(r3, "xsd", XsdUri);
    RegisterPrefix(r4, "dul", DulUri)
  }

  /** The fresh registry is linked. */
  lemma {:induction false} DefaultLinked()
    ensures Linked(Default())
  {
  }

  /** Registering keeps a registry linked, starting from the empty one:
      no key is ever removed, and the new pair refers to itself. */
  lemma {:induction false} RegisterKeepsLinked(reg: Registry, prefix: string, uri: string)
    requires |uri| > 0 && Linked(reg)
    ensures Linked(RegisterPrefix(reg, prefix, uri))
    ensures Linked(Empty)
  {
    var r := RegisterPrefix(reg, prefix, uri);
    forall u | u in r.uriToAlias
      ensures r.uriToAlias[u] in r.aliasToUri
    {
      if u != StripHash(uri) {
        assert r.uriToAlias[u] == reg.uriToAlias[u];
      }
    }
  }

  /** After registering, both lookups find the new entry, with or without
      a trailing `#` on the URI. */
  lemma {:induction false} RegisterThenLookup(reg: Registry, prefix: string, uri: string)
    requires |uri| > 0
    ensures AliasToUri(RegisterPrefix(reg, prefix, uri), prefix) == Some(StripHash(uri))
    ensures UriToAlias(RegisterPrefix(reg, prefix, uri), uri) == Some(prefix)
  {
  }

  /** Registering leaves every other alias and URI as it was. */
  lemma {:induction false} RegisterKeepsOthers(reg: Registry, prefix: string, uri: string, a: string, u: string)
    requires |uri| > 0 && |u| > 0
    requires a != prefix && StripHash(u) != StripHash(uri)
    ensures AliasToUri(RegisterPrefix(reg, prefix, uri), a) == AliasToUri(reg, a)
    ensures UriToAlias(RegisterPrefix(reg, prefix, uri), u) == UriToAlias(reg, u)
  {
  }

  /** A URI is found whether or not it is written with a trailing `#`, as
      long as it does not already end in `#`. */
  lemma {:induction false} UriToAliasIgnoresHash(reg: Registry, u: string)
    requires |u| > 0 && u[|u| - 1] != '#'
    ensures UriToAlias(reg, u) == UriToAlias(reg, u + "#")
  {
    assert (u + "#")[..|u|] == u;
  }

  /** Only one `#` is stripped: after registering `x`, `x#` is found but
      `x##` is not. */
  lemma {:induction false} OnlyOneHashStripped()
    ensures UriToAlias(RegisterPrefix(Empty, "a", "x"), "x#") == Some("a")
    ensures UriToAlias(RegisterPrefix(Empty, "a", "x"), "x##") == None
  {
    assert StripHash("x#") == "x";
    assert StripHash("x##") == "x#";
    assert "x#" != "x";
  }

  /** The parser's `owl:foo` shorthand. */
  lemma {:induction false} CreateIRIExample()
    ensures CreateIRI(Default(), "owl", "foo") == Some("http://www.w3.org/2002/07/owl#foo")
  {
    assert CreateIRI(Default(), "owl", "foo") == Some(OwlUri + "#" + "foo");
    OwlFooSpelled();
  }

  lemma OwlFooSpelled()
    ensures OwlUri + "#" + "foo" == "http://www.w3.org/2002/07/owl#foo"
  {
  }

  /** An alias the fresh registry does not know gives no IRI. */
  lemma {:induction false} CreateIRIUnknown()
    ensures CreateIRI(Default(), "foo", "bar") == None
  {
    assert "foo" !in Default().aliasToUri;
  }
}
