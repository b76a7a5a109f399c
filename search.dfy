/** The client-side search of the character list: which records a query keeps, and the
    properties of the kept view (sound, complete, a subsequence, insensitive to case). */
module Search {
  import opened Text

  datatype Option<T> = None | Some(value: T)

  /** A record as the mobile client receives it. Each text field may be absent (`undefined`
      or `null`), which `char.field?.toLowerCase()` turns into `undefined`, a non-match.
      `id` stands for `_id`/`id`; `id` and `image` play no part in the search. */
  datatype Character = Character(
    id: Option<string>,
    name: Option<string>,
    role: Option<string>,
    description: Option<string>,
    image: Option<string>)

  /** `field?.toLowerCase().includes(query.toLowerCase())`: an absent field never matches;
      a present one matches when the lower-cased query occurs somewhere in it, lower-cased. */
  predicate FieldMatches(field: Option<string>, query: string)
    ensures FieldMatches(field, query) <==> field.Some? && OccursIn(Lower(field.value), Lower(query))
  {
    if field.None? then false
    else
      ContainsIffOccurs(Lower(field.value), Lower(query));
      Contains(Lower(field.value), Lower(query))
  }

  /** The predicate handed to `allChars.filter`: the lower-cased query occurs in the name, the
      description or the role, lower-cased; a record with none of the three never matches. */
  predicate Matches(c: Character, query: string)
    ensures Matches(c, query) <==>
              (c.name.Some? && OccursIn(Lower(c.name.value), Lower(query)))
              || (c.description.Some? && OccursIn(Lower(c.description.value), Lower(query)))
              || (c.role.Some? && OccursIn(Lower(c.role.value), Lower(query)))
    ensures c.name.None? && c.description.None? && c.role.None? ==> !Matches(c, query)
  {
    FieldMatches(c.name, query) || FieldMatches(c.description, query) || FieldMatches(c.role, query)
  }

  /** `sub` can be obtained from `s` by deleting elements: nothing added, order kept. */
  ghost predicate IsSubsequence<T>(sub: seq<T>, s: seq<T>)
    decreases |s|
  {
    sub == [] ||
    (s != [] && ((sub[0] == s[0] && IsSubsequence(sub[1..], s[1..])) || IsSubsequence(sub, s[1..])))
  }

  /** Every sequence is a subsequence of itself. */
  lemma {:induction false} SubsequenceReflexive<T>(s: seq<T>)
    ensures IsSubsequence(s, s)
    decreases |s|
  {
    if s != [] {
      SubsequenceReflexive(s[1..]);
    }
  }

  /** A subsequence is never longer than the sequence and holds no element (counted with
      multiplicity) that the sequence does not. */
  lemma {:induction false} SubsequenceBounds<T>(sub: seq<T>, s: seq<T>)
    requires IsSubsequence(sub, s)
    ensures |sub| <= |s|
    ensures multiset(sub) <= multiset(s)
    decreases |s|
  {
    if sub != [] {
      if sub[0] == s[0] && IsSubsequence(sub[1..], s[1..]) {
        SubsequenceBounds(sub[1..], s[1..]);
        assert sub == [sub[0]] + sub[1..];
        assert s == [s[0]] + s[1..];
      } else {
        SubsequenceBounds(sub, s[1..]);
        assert s == [s[0]] + s[1..];
      }
    }
  }

  /** `allChars.filter(Matches)`: the records that match, in their original order. Each record
      is kept exactly as often as it occurs, if it matches, and not at all otherwise. */
  function Select(cs: seq<Character>, query: string): (r: seq<Character>)
    ensures IsSubsequence(r, cs)
    ensures forall c :: c in r ==> Matches(c, query)
    ensures forall c :: multiset(r)[c] == if Matches(c, query) then multiset(cs)[c] else 0
  {
    if cs == [] then []
    else
      assert cs == [cs[0]] + cs[1..];
      if Matches(cs[0], query) then [cs[0]] + Select(cs[1..], query) else Select(cs[1..], query)
  }

  /** `filterCharacters`: a query that is blank after trimming shows the whole list; any other
      query keeps the records one of whose searched fields contains it, ignoring case. The
      untrimmed query is what is searched for; trimming only decides blankness. */
  function FilterCharacters(all: seq<Character>, query: string): (r: seq<Character>)
    ensures IsSubsequence(r, all)
    ensures IsBlank(query) ==> r == all
    ensures !IsBlank(query) ==> forall c :: c in r ==> Matches(c, query)
    ensures !IsBlank(query) ==> forall c :: c in all && Matches(c, query) ==> c in r
    ensures forall c :: multiset(r)[c] == if IsBlank(query) || Matches(c, query) then multiset(all)[c] else 0
  {
    SubsequenceReflexive(all);
    if IsBlank(query) then all else Select(all, query)
  }

  /** The view is never longer than the list it was computed from. */
  lemma FilterNeverGrows(all: seq<Character>, query: string)
    ensures |FilterCharacters(all, query)| <= |all|
    ensures multiset(FilterCharacters(all, query)) <= multiset(all)
  {
    SubsequenceBounds(FilterCharacters(all, query), all);
  }

  /** Filtering a filtered view again with the same query changes nothing. */
  lemma {:induction false} SelectIdempotent(cs: seq<Character>, query: string)
    requires forall c :: c in cs ==> Matches(c, query)
    ensures Select(cs, query) == cs
  {
    if cs != [] {
      SelectIdempotent(cs[1..], query);
    }
  }

  lemma FilterIdempotent(all: seq<Character>, query: string)
    ensures FilterCharacters(FilterCharacters(all, query), query) == FilterCharacters(all, query)
  {
    if !IsBlank(query) {
      SelectIdempotent(Select(all, query), query);
    }
  }

  /** Two queries that accept the same records select the same view. */
  lemma {:induction false} SelectCongruent(cs: seq<Character>, q1: string, q2: string)
    requires forall c :: Matches(c, q1) == Matches(c, q2)
    ensures Select(cs, q1) == Select(cs, q2)
  {
    if cs != [] {
      SelectCongruent(cs[1..], q1, q2);
    }
  }

  /** The search ignores the case of the query: typing it in capitals shows the same view. */
  lemma QueryCaseInsensitive(all: seq<Character>, query: string)
    ensures FilterCharacters(all, Lower(query)) == FilterCharacters(all, query)
  {
    LowerKeepsBlank(query);
    LowerIdempotent(query);
    SelectCongruent(all, Lower(query), query);
  }

  /** If every record the stricter query accepts is accepted by the looser one, the stricter
      view is a subsequence of the looser one. */
  lemma {:induction false} SelectMonotone(cs: seq<Character>, strict: string, loose: string)
    requires forall c :: Matches(c, strict) ==> Matches(c, loose)
    ensures IsSubsequence(Select(cs, strict), Select(cs, loose))
  {
    if cs != [] {
      SelectMonotone(cs[1..], strict, loose);
      var s1, l1 := Select(cs[1..], strict), Select(cs[1..], loose);
      if Matches(cs[0], strict) {
        assert Select(cs, strict) == [cs[0]] + s1;
        assert Select(cs, loose) == [cs[0]] + l1;
      } else if Matches(cs[0], loose) {
        var sub, s := Select(cs, strict), Select(cs, loose);
        assert sub == s1 && s == [cs[0]] + l1;
        assert s[1..] == l1;
      }
    }
  }

  /** Typing more of a word can only narrow the view: when the longer query contains the
      shorter one (ignoring case), its view is a subsequence of the shorter query's view. */
  lemma NarrowingQuery(all: seq<Character>, shorter: string, longer: string)
    requires Contains(Lower(longer), Lower(shorter))
    ensures IsSubsequence(FilterCharacters(all, longer), FilterCharacters(all, shorter))
  {
    if IsBlank(shorter) {
      return;
    }
    if IsBlank(longer) {
      BlankIffAllWhitespace(longer);
      LowerKeepsBlank(longer);
      BlankIffAllWhitespace(Lower(longer));
      WhitespaceParts(Lower(longer), Lower(shorter));
      BlankIffAllWhitespace(Lower(shorter));
      LowerKeepsBlank(shorter);
      assert false;
    }
    forall c | Matches(c, longer)
      ensures Matches(c, shorter)
    {
      if FieldMatches(c.name, longer) {
        ContainsTransitive(Lower(c.name.value), Lower(longer), Lower(shorter));
      } else if FieldMatches(c.description, longer) {
        ContainsTransitive(Lower(c.description.value), Lower(longer), Lower(shorter));
      } else {
        ContainsTransitive(Lower(c.role.value), Lower(longer), Lower(shorter));
      }
    }
    SelectMonotone(all, longer, shorter);
  }

  /** Only the blankness test trims: a query with a trailing space is not blank, and it is
      searched for with the space, so it misses a record its trimmed form finds. */
  lemma QueryIsNotTrimmed()
    ensures var shiryu := Character(None, Some("Shiryu"), None, None, None);
            !IsBlank("shi ") && !Matches(shiryu, "shi ") && Matches(shiryu, Trim("shi "))
  {
    TrimShi();
    LowerLiteral("Shiryu", "shiryu");
    LowerLiteral("shi ", "shi ");
    LowerLiteral("shi", "shi");
    ShiryuContains();
  }

  lemma TrimShi()
    ensures Trim("shi ") == "shi"
  {
    assert TrimStart("shi ") == "shi ";
    assert "shi "[..3] == "shi";
    assert TrimEnd("shi ") == "shi";
  }

  lemma ShiryuContains()
    ensures Contains("shiryu", "shi") && !Contains("shiryu", "shi ")
  {
    assert "shiryu"[..3] == "shi";
    assert "shiryu"[1..] == "hiryu";
    assert "hiryu"[1..] == "iryu";
    assert "iryu"[1..] == "ryu";
    assert "iryu"[..4][0] != "shi "[0];
    assert !Contains("iryu", "shi ");
    assert "hiryu"[..4][0] != "shi "[0];
    assert !Contains("hiryu", "shi ");
    assert "shiryu"[..4][3] != "shi "[3];
  }

  /** Lower-cases a literal one character at a time. */
  lemma LowerLiteral(s: string, expected: string)
    requires |s| == |expected|
    requires forall i :: 0 <= i < |s| ==> LowerChar(s[i]) == expected[i]
    ensures Lower(s) == expected
  {
  }

  /** A record whose searched fields are all absent is never shown for a non-blank query. */
  lemma MissingFieldsNeverMatch(all: seq<Character>, query: string, c: Character)
    requires c.name.None? && c.description.None? && c.role.None?
    requires !IsBlank(query)
    ensures c !in FilterCharacters(all, query)
  {
  }
}
