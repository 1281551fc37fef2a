/** The filter engine (`filteredPeople`): the entries of the people list whose lower-cased name
    contains the lower-cased applied query, in list order. */
module Filter {
  import opened Text
  import opened People

  /** Specification of one match: the lower-cased query occurs in the lower-cased name. */
  ghost predicate NameMatches(query: string, p: Person)
  {
    Contains(Lower(p.name), Lower(query))
  }

  /** The callback handed to `filter`: `name.toLowerCase().includes(query.toLowerCase())`. */
  function Matches(query: string, p: Person): (b: bool)
    ensures b <==> NameMatches(query, p)
  {
    Includes(Lower(p.name), Lower(query))
  }

  /** `people.filter(...)`: keeps each entry whose name matches, front to back. */
  function FilterPeople(query: string, people: seq<Person>): (r: seq<Person>)
    ensures |r| <= |people|
    ensures forall p :: p in r <==> p in people && NameMatches(query, p)
  {
    if people == [] then
      []
    else if Matches(query, people[0]) then
      [people[0]] + FilterPeople(query, people[1..])
    else
      FilterPeople(query, people[1..])
  }

  /** `r` is `s` with some entries dropped and the rest kept in order. */
  ghost predicate Subsequence<T>(r: seq<T>, s: seq<T>)
    decreases |s|
  {
    r == [] || (s != [] && ((r[0] == s[0] && Subsequence(r[1..], s[1..])) || Subsequence(r, s[1..])))
  }

  lemma {:induction false} SubsequenceMultiset<T>(r: seq<T>, s: seq<T>)
    requires Subsequence(r, s)
    ensures multiset(r) <= multiset(s)
    decreases |s|
  {
    if r != [] {
      assert s == [s[0]] + s[1..];
      if r[0] == s[0] && Subsequence(r[1..], s[1..]) {
        SubsequenceMultiset(r[1..], s[1..]);
        assert r == [r[0]] + r[1..];
      } else {
        SubsequenceMultiset(r, s[1..]);
      }
    }
  }

  /** The filter keeps the list order. */
  lemma {:induction false} FilterIsSubsequence(query: string, people: seq<Person>)
    ensures Subsequence(FilterPeople(query, people), people)
    decreases |people|
  {
    if people != [] {
      FilterIsSubsequence(query, people[1..]);
      var r := FilterPeople(query, people);
      if Matches(query, people[0]) {
        assert r[0] == people[0] && r[1..] == FilterPeople(query, people[1..]);
      }
    }
  }

  /** Duplicates are kept: a matching entry appears in the result as often as in the list, and a
      non-matching one not at all. */
  lemma {:induction false} FilterCount(query: string, people: seq<Person>, p: Person)
    ensures multiset(FilterPeople(query, people))[p]
         == if NameMatches(query, p) then multiset(people)[p] else 0
    decreases |people|
  {
    if people != [] {
      FilterCount(query, people[1..], p);
      assert people == [people[0]] + people[1..];
    }
  }

  /** The filter is the only ordered selection of the list that holds nothing but matches and
      every match with its multiplicity: it is exactly the matching entries, in list order. */
  lemma {:induction false} FilterUnique(query: string, people: seq<Person>, r: seq<Person>)
    requires Subsequence(r, people)
    requires forall p :: p in r ==> NameMatches(query, p)
    requires forall p :: NameMatches(query, p) ==> multiset(r)[p] == multiset(people)[p]
    ensures r == FilterPeople(query, people)
    decreases |people|
  {
    if people == [] {
      return;
    }
    var h, t := people[0], people[1..];
    assert people == [h] + t;
    if NameMatches(query, h) {
      assert multiset(r)[h] == multiset(people)[h] > multiset(t)[h];
      assert r != [];
      if !(r[0] == h && Subsequence(r[1..], t)) {
        SubsequenceMultiset(r, t);
        assert false;
      }
      assert r == [h] + r[1..];
      forall p | p in r[1..] ensures NameMatches(query, p) {
        assert p in r;
      }
      FilterUnique(query, t, r[1..]);
    } else {
      if r != [] {
        assert r[0] in r;
        assert r[0] != h;
      }
      FilterUnique(query, t, r);
    }
  }

  /** An empty applied query keeps the whole list unchanged. */
  lemma {:induction false} FilterEmptyQuery(people: seq<Person>)
    ensures FilterPeople("", people) == people
    decreases |people|
  {
    if people != [] {
      assert Lower("") == "";
      ContainsEmpty(Lower(people[0].name));
      FilterEmptyQuery(people[1..]);
    }
  }

  /** Filtering twice with the same query gives the result of filtering once. */
  lemma {:induction false} FilterIdempotent(query: string, people: seq<Person>)
    ensures FilterPeople(query, FilterPeople(query, people)) == FilterPeople(query, people)
    decreases |people|
  {
    if people != [] {
      FilterIdempotent(query, people[1..]);
      var r := FilterPeople(query, people);
      if Matches(query, people[0]) {
        assert r[0] == people[0] && r[1..] == FilterPeople(query, people[1..]);
      }
    }
  }

  /** Filtering a concatenation filters each part. */
  lemma {:induction false} FilterAppend(query: string, a: seq<Person>, b: seq<Person>)
    ensures FilterPeople(query, a + b) == FilterPeople(query, a) + FilterPeople(query, b)
    decreases |a|
  {
    if a == [] {
      assert a + b == b;
    } else {
      assert (a + b)[0] == a[0] && (a + b)[1..] == a[1..] + b;
      FilterAppend(query, a[1..], b);
    }
  }

  /** Case does not matter: two queries with the same lower-cased text select the same entries. */
  lemma CaseInsensitive(q1: string, q2: string, people: seq<Person>)
    requires Lower(q1) == Lower(q2)
    ensures FilterPeople(q1, people) == FilterPeople(q2, people)
  {
  }

  /** Extending the query narrows the result: when the new lower-cased query contains the old one,
      the new result is an ordered selection of the old one. */
  lemma {:induction false} FilterNarrows(longer: string, shorter: string, people: seq<Person>)
    requires Contains(Lower(longer), Lower(shorter))
    ensures Subsequence(FilterPeople(longer, people), FilterPeople(shorter, people))
    decreases |people|
  {
    if people != [] {
      var h := people[0];
      var a, b := FilterPeople(longer, people), FilterPeople(shorter, people);
      FilterNarrows(longer, shorter, people[1..]);
      if Matches(longer, h) {
        ContainsTransitive(Lower(h.name), Lower(longer), Lower(shorter));
        assert a[0] == h && a[1..] == FilterPeople(longer, people[1..]);
        assert b[0] == h && b[1..] == FilterPeople(shorter, people[1..]);
      } else if Matches(shorter, h) {
        assert b[1..] == FilterPeople(shorter, people[1..]);
      }
    }
  }
}
