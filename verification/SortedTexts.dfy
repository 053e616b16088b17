/** Lists of texts without duplicates in byte order, and the canonical form of a set of scope tokens. */
module SortedTexts {
  import opened Texts
  import opened Sorting

  /** A list in byte order. */
  function Arranged(e: seq<Text>): seq<Text> {
    Sort(e, (p, q) => Less(p, q))
  }

  predicate DuplicateFree(e: seq<Text>) {
    forall i, j :: 0 <= i < j < |e| ==> e[i] != e[j]
  }

  ghost predicate Ascending(s: seq<Text>) {
    forall i, j :: 0 <= i < j < |s| ==> Less(s[i], s[j])
  }

  lemma TextsAreStrict()
    ensures StrictOrder((p: Text, q: Text) => Less(p, q), (p: Text) => true)
  {
    forall p: Text, q: Text
      ensures p == q || Less(p, q) || Less(q, p)
      ensures Less(p, q) ==> !Less(q, p)
    {
      LessIsTotal(p, q);
    }
    forall p: Text, q: Text, r: Text | Less(p, q) && Less(q, r)
      ensures Less(p, r)
    {
      LessIsTransitive(p, q, r);
    }
    hide Less;
  }

  /** Arranging texts without duplicates puts each of them in its one place. */
  lemma ArrangedMeaning(e: seq<Text>)
    requires DuplicateFree(e)
    ensures Ascending(Arranged(e)) && forall p :: p in Arranged(e) <==> p in e
  {
    hide Less;
    var before := (p: Text, q: Text) => Less(p, q);
    var s := Arranged(e);
    TextsAreStrict();
    SortSorts(e, before, (p: Text) => true);
    hide StrictOrder;
    SameElements(e, s);
    forall i, j | 0 <= i < j < |s|
      ensures Less(s[i], s[j])
    {
      assert !before(s[j], s[i]);
      OnceEach(e, s, i, j);
      LessIsTotal(s[i], s[j]);
    }
  }

  lemma OnceEach(e: seq<Text>, s: seq<Text>, i: nat, j: nat)
    requires DuplicateFree(e) && multiset(e) == multiset(s) && i < j < |s|
    ensures s[i] != s[j]
  {
    if s[i] == s[j] {
      RepeatedElement(s, i, j);
      OccursOnce(e, s[i]);
    }
  }

  lemma {:induction false} OccursOnce(e: seq<Text>, p: Text)
    requires DuplicateFree(e)
    ensures multiset(e)[p] <= 1
    decreases |e|
  {
    if e != [] {
      var front, last := e[..|e| - 1], e[|e| - 1];
      OccursOnce(front, p);
      assert e == front + [last];
      if last == p {
        assert p !in front;
      }
    }
  }

  /** The elements of a list, once each. */
  function Once(texts: seq<Text>): (r: seq<Text>)
    ensures DuplicateFree(r) && forall p :: p in r <==> p in texts
    decreases |texts|
  {
    if texts == [] then []
    else
      var front, last := Once(texts[..|texts| - 1]), texts[|texts| - 1];
      assert texts == texts[..|texts| - 1] + [last];
      if last in front then front else front + [last]
  }

  /** Two ascending lists of the same texts are the same list. */
  lemma AscendingIsUnique(a: seq<Text>, b: seq<Text>)
    requires DuplicateFree(a) && DuplicateFree(b) && forall t :: t in a <==> t in b
    ensures Arranged(a) == Arranged(b)
  {
    SameMultisets(a, b);
    TextsAreStrict();
    var before := (p: Text, q: Text) => Less(p, q);
    SortSorts(a, before, (p: Text) => true);
    SortSorts(b, before, (p: Text) => true);
    hide StrictOrder;
    SortedIsUnique(Arranged(a), Arranged(b), before, (p: Text) => true);
  }

  lemma SameMultisets(a: seq<Text>, b: seq<Text>)
    requires DuplicateFree(a) && DuplicateFree(b) && forall t :: t in a <==> t in b
    ensures multiset(a) == multiset(b)
  {
    forall t
      ensures multiset(a)[t] == multiset(b)[t]
    {
      OccursOnce(a, t);
      OccursOnce(b, t);
      assert (t in a <==> t in multiset(a)) && (t in b <==> t in multiset(b));
    }
  }

  // ---------- Canonical scope terms ----------

  const BLANK: Byte := 32

  function Joined(terms: seq<Text>): Text {
    if terms == [] then []
    else if |terms| == 1 then terms[0]
    else terms[0] + [BLANK] + Joined(terms[1..])
  }

  /** canonical_scope_terms, of valid tokens: each once, in order, with blanks between. */
  function CanonicalTerms(tokens: seq<Text>): Text {
    Joined(Arranged(Once(tokens)))
  }

  lemma OneTermHasNoBlank(terms: seq<Text>)
    requires terms != [] && forall t <- terms :: BLANK !in t
    ensures BLANK in Joined(terms) <==> |terms| > 1
  {
    if |terms| > 1 {
      assert Joined(terms)[|terms[0]|] == BLANK;
    }
  }

  lemma {:induction false} JoinedIsInjective(a: seq<Text>, b: seq<Text>)
    requires a != [] && b != [] && (forall t <- a :: BLANK !in t) && (forall t <- b :: BLANK !in t)
    requires Joined(a) == Joined(b)
    ensures a == b
    decreases |a|
  {
    OneTermHasNoBlank(a);
    OneTermHasNoBlank(b);
    if |a| > 1 {
      SeparatorSplits(BLANK, a[0], Joined(a[1..]), b[0], Joined(b[1..]));
      JoinedIsInjective(a[1..], b[1..]);
      assert a == [a[0]] + a[1..] && b == [b[0]] + b[1..];
    }
  }

  lemma CanonicalListing(tokens: seq<Text>)
    requires tokens != []
    ensures Arranged(Once(tokens)) != [] && forall t :: t in Arranged(Once(tokens)) <==> t in tokens
  {
    ArrangedMeaning(Once(tokens));
    hide Arranged, Once;
    assert tokens[0] in Arranged(Once(tokens));
  }

  lemma SameTokens(a: seq<Text>, b: seq<Text>)
    ensures (set t <- a) == (set t <- b) <==> forall t :: t in a <==> t in b
  {
    var x, y := set t <- a, set t <- b;
    assert (forall t :: t in a <==> t in x) && (forall t :: t in b <==> t in y);
    if forall t :: t in a <==> t in b {
      assert x == y;
    }
  }

  /** The stored scope terms are equal exactly when the sets of tokens are. */
  lemma CanonicalExactly(a: seq<Text>, b: seq<Text>)
    requires a != [] && b != [] && (forall t <- a :: BLANK !in t) && (forall t <- b :: BLANK !in t)
    ensures CanonicalTerms(a) == CanonicalTerms(b) <==> (set t <- a) == (set t <- b)
  {
    hide Arranged, Once, Joined;
    CanonicalListing(a);
    CanonicalListing(b);
    SameTokens(a, b);
    if CanonicalTerms(a) == CanonicalTerms(b) {
      JoinedIsInjective(Arranged(Once(a)), Arranged(Once(b)));
    }
    if forall t :: t in a <==> t in b {
      AscendingIsUnique(Once(a), Once(b));
    }
  }
}
