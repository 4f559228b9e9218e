/** The matching step of `getCountryByName`: decode the query, lower-case it,
    and find the first country whose lower-cased name equals it. */
module Lookup {
  import opened Wrappers
  import opened Models
  import opened Text
  import opened Uri

  /** The country's lower-cased name is `key`. */
  predicate NameMatches(c: Country, key: string) {
    ToLower(c.country) == key
  }

  /** `Array.prototype.find` with the name test: the first match in array
      order, or `None` when no country matches. */
  function FindFirst(data: seq<Country>, key: string): (r: Option<Country>)
    ensures r.None? <==> forall i :: 0 <= i < |data| ==> !NameMatches(data[i], key)
    ensures r.Some? ==>
              exists i :: 0 <= i < |data| && data[i] == r.value && NameMatches(data[i], key) &&
                          forall j :: 0 <= j < i ==> !NameMatches(data[j], key)
    decreases |data|
  {
    if data == [] then None
    else if NameMatches(data[0], key) then Some(data[0])
    else
      var r := FindFirst(data[1..], key);
      assert r.Some? ==> exists i :: 1 <= i < |data| && data[i] == r.value && NameMatches(data[i], key) &&
                                     forall j :: 0 <= j < i ==> !NameMatches(data[j], key) by {
        if r.Some? {
          var i :| 0 <= i < |data[1..]| && data[1..][i] == r.value && NameMatches(data[1..][i], key) &&
                   forall j :: 0 <= j < i ==> !NameMatches(data[1..][j], key);
          assert data[i + 1] == r.value;
          forall j | 0 <= j < i + 1 ensures !NameMatches(data[j], key) {
            if j > 0 { assert data[j] == data[1..][j - 1]; }
          }
        }
      }
      r
  }

  /** The lookup over a loaded snapshot: the first country, in array order,
      whose name equals the decoded query ignoring case; `None` when the query
      cannot be decoded or no name matches it. */
  function FindByName(data: seq<Country>, query: string): (r: Option<Country>)
    ensures Decode(query).None? ==> r.None?
    ensures r.Some? ==> r.value in data && SameIgnoringCase(r.value.country, Decode(query).value)
    ensures r.Some? ==>
              forall j :: 0 <= j < |data| && SameIgnoringCase(data[j].country, Decode(query).value) ==>
                            r.value in data[..j + 1]
    ensures Decode(query).Some? && r.None? ==>
              forall i :: 0 <= i < |data| ==> !SameIgnoringCase(data[i].country, Decode(query).value)
  {
    match Decode(query)
    case None => None
    case Some(name) =>
      ToLowerIdempotent(name);
      var r := FindFirst(data, ToLower(name));
      assert r.Some? ==>
               forall j :: 0 <= j < |data| && SameIgnoringCase(data[j].country, name) ==>
                             r.value in data[..j + 1] by {
        if r.Some? {
          var i :| 0 <= i < |data| && data[i] == r.value && NameMatches(data[i], ToLower(name)) &&
                   forall j :: 0 <= j < i ==> !NameMatches(data[j], ToLower(name));
          forall j | 0 <= j < |data| && SameIgnoringCase(data[j].country, name)
            ensures r.value in data[..j + 1]
          {
            assert NameMatches(data[j], ToLower(name));
            assert data[..j + 1][i] == r.value;
          }
        }
      }
      r
  }

  /** The country found is the first match in array order: it sits at an index
      where the name matches and no earlier name does. */
  lemma FindByNameFirst(data: seq<Country>, query: string)
    requires FindByName(data, query).Some?
    ensures exists i :: 0 <= i < |data| && data[i] == FindByName(data, query).value &&
                        SameIgnoringCase(data[i].country, Decode(query).value) &&
                        forall j :: 0 <= j < i ==> !SameIgnoringCase(data[j].country, Decode(query).value)
  {
    ToLowerIdempotent(Decode(query).value);
  }

  /** Queries that differ only in letter case find the same country. */
  lemma FindByNameIgnoresCase(data: seq<Country>, q1: string, q2: string)
    requires SameIgnoringCase(q1, q2)
    ensures FindByName(data, q1) == FindByName(data, q2)
  {
    DecodeIgnoresCase(q1, q2);
    if Decode(q1).Some? {
      ToLowerIdempotent(Decode(q1).value);
      ToLowerIdempotent(Decode(q2).value);
    }
  }

  /** A query without `%` matches the first country with that name, ignoring case. */
  lemma FindByNamePlain(data: seq<Country>, query: string, i: nat)
    requires forall k :: 0 <= k < |query| ==> query[k] != '%'
    requires i < |data| && SameIgnoringCase(data[i].country, query)
    requires forall j :: 0 <= j < i ==> !SameIgnoringCase(data[j].country, query)
    ensures FindByName(data, query) == Some(data[i])
  {
    DecodePlain(query);
    var r := FindByName(data, query);
    assert r.Some? by {
      ToLowerIdempotent(query);
      assert NameMatches(data[i], ToLower(query));
    }
    assert r.value in data[..i + 1];
    var k :| 0 <= k <= i && data[k] == r.value;
  }

  /** Two queries that decode alike find the same country. */
  lemma FindByNameSameDecoding(data: seq<Country>, q1: string, q2: string)
    requires Decode(q1) == Decode(q2)
    ensures FindByName(data, q1) == FindByName(data, q2)
  {
  }

  /** "france" and "France" are equal ignoring case. */
  lemma FranceIgnoringCase()
    ensures SameIgnoringCase("france", "France")
  {
    assert ToLower("france") == "france";
    assert ToLower("France") == "france";
  }

  /** The escape in "Fr%61nce" stands for the letter a. */
  lemma DecodeFrance()
    ensures Decode("Fr%61nce") == Some("France")
  {
    DecodePlain("nce");
    var s := "%61nce";
    assert s[3..] == "nce";
    assert HexValue(s[1]) == 6 && HexValue(s[2]) == 1;
    assert (97 as char) == 'a';
    assert ['a'] + "nce" == "ance";
    assert Decode(s) == Some("ance");
    assert "r%61nce"[1..] == s;
    assert ['r'] + "ance" == "rance";
    assert Decode("r%61nce") == Some("rance");
    assert "Fr%61nce"[1..] == "r%61nce";
    assert ['F'] + "rance" == "France";
  }

  /** "france", "France" and "Fr%61nce" all find the record named "France". */
  lemma FranceExample(others: seq<Country>, france: Country)
    requires france.country == "France"
    requires forall j :: 0 <= j < |others| ==> !SameIgnoringCase(others[j].country, "France")
    ensures FindByName(others + [france], "France") == Some(france)
    ensures FindByName(others + [france], "france") == Some(france)
    ensures FindByName(others + [france], "Fr%61nce") == Some(france)
  {
    var data := others + [france];
    assert data[|others|] == france;
    forall j | 0 <= j < |others| ensures !SameIgnoringCase(data[j].country, "France") {
      assert data[j] == others[j];
    }
    FindByNamePlain(data, "France", |others|);
    FranceIgnoringCase();
    FindByNameIgnoresCase(data, "france", "France");
    DecodeFrance();
    DecodePlain("France");
    FindByNameSameDecoding(data, "Fr%61nce", "France");
  }

  /** On every snapshot, "France", "france" and "Fr%61nce" give the same result. */
  lemma FranceAnySnapshot(data: seq<Country>)
    ensures FindByName(data, "France") == FindByName(data, "france") == FindByName(data, "Fr%61nce")
  {
    FranceIgnoringCase();
    FindByNameIgnoresCase(data, "france", "France");
    DecodeFrance();
    DecodePlain("France");
    FindByNameSameDecoding(data, "Fr%61nce", "France");
  }

  /** In a snapshot holding only the "France" record, the encoded and the
      lower-case query both find it. */
  lemma FranceAlone(france: Country)
    requires france.country == "France"
    ensures FindByName([france], "Fr%61nce") == Some(france)
    ensures FindByName([france], "france") == Some(france)
  {
    assert [] + [france] == [france];
    FranceExample([], france);
  }
}
