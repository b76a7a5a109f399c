/** String primitives the character list relies on, with the meaning JavaScript gives them:
    `toLowerCase`, `trim`, `includes` and the decimal rendering of a number in a template literal. */
module Text {

  // ---------------------------------------------------------------------------
  // Lower-casing (String.prototype.toLowerCase)
  // ---------------------------------------------------------------------------

  /** Upper-case letters this model folds: ASCII A-Z and the Latin-1 capitals
      U+00C0..U+00DE except the multiplication sign U+00D7 (Á, É, Ñ, Ó, Ú, ...). */
  predicate IsUpper(c: char) {
    ('A' <= c <= 'Z') || ('\U{00C0}' <= c <= '\U{00DE}' && c != '\U{00D7}')
  }

  /** The lower-case partner of an upper-case letter lies 32 code points above it. */
  function LowerChar(c: char): (d: char)
    ensures !IsUpper(d)
    ensures IsUpper(c) ==> d as int == c as int + 32
    ensures !IsUpper(c) ==> d == c
  {
    if IsUpper(c) then (c as int + 32) as char else c
  }

  /** `s.toLowerCase()`: every character folded on its own; the length never changes. */
  function Lower(s: string): (r: string)
    ensures |r| == |s|
    ensures forall i :: 0 <= i < |s| ==> r[i] == LowerChar(s[i])
  {
    if s == [] then [] else [LowerChar(s[0])] + Lower(s[1..])
  }

  /** Folding twice is folding once. */
  lemma {:induction false} LowerIdempotent(s: string)
    ensures Lower(Lower(s)) == Lower(s)
  {
    var once := Lower(s);
    var twice := Lower(once);
    assert |twice| == |once|;
    forall i | 0 <= i < |once|
      ensures twice[i] == once[i]
    {
      assert !IsUpper(once[i]);
    }
  }

  // ---------------------------------------------------------------------------
  // Trimming (String.prototype.trim)
  // ---------------------------------------------------------------------------

  /** ECMAScript WhiteSpace and LineTerminator code points: what `trim` strips. */
  predicate IsJsWhitespace(c: char) {
    c == '\t' || c == '\n' || c == '\U{000B}' || c == '\U{000C}' || c == '\r' || c == ' '
    || c == '\U{00A0}' || c == '\U{1680}' || ('\U{2000}' <= c <= '\U{200A}')
    || c == '\U{2028}' || c == '\U{2029}' || c == '\U{202F}' || c == '\U{205F}'
    || c == '\U{3000}' || c == '\U{FEFF}'
  }

  predicate AllWhitespace(s: string) {
    forall i :: 0 <= i < |s| ==> IsJsWhitespace(s[i])
  }

  /** Drops the leading whitespace: a string that does not start with whitespace is kept
      as it is, and what is left never starts with whitespace. */
  function TrimStart(s: string): (r: string)
    ensures |r| <= |s|
    ensures r == [] || !IsJsWhitespace(r[0])
    ensures s == [] || !IsJsWhitespace(s[0]) ==> r == s
  {
    if s != [] && IsJsWhitespace(s[0]) then TrimStart(s[1..]) else s
  }

  /** Drops the trailing whitespace: a string that does not end with whitespace is kept as
      it is, and what is left never ends with whitespace. */
  function TrimEnd(s: string): (r: string)
    ensures |r| <= |s|
    ensures r == [] || !IsJsWhitespace(r[|r| - 1])
    ensures s == [] || !IsJsWhitespace(s[|s| - 1]) ==> r == s
  {
    if s != [] && IsJsWhitespace(s[|s| - 1]) then TrimEnd(s[..|s| - 1]) else s
  }

  /** `s.trim()`: neither end of the result is whitespace, and a string with no whitespace at
      either end comes back unchanged. */
  function Trim(s: string): (r: string)
    ensures |r| <= |s|
    ensures r == [] || (!IsJsWhitespace(r[0]) && !IsJsWhitespace(r[|r| - 1]))
    ensures s == [] || (!IsJsWhitespace(s[0]) && !IsJsWhitespace(s[|s| - 1])) ==> r == s
  {
    var t := TrimStart(s);
    TrimEndShape(t);
    TrimEnd(t)
  }

  /** `!s.trim()`: the trimmed string is the empty (falsy) string, which happens exactly when
      every character of `s` is whitespace. */
  predicate IsBlank(s: string)
    ensures IsBlank(s) <==> AllWhitespace(s)
  {
    BlankIffAllWhitespace(s);
    Trim(s) == []
  }

  /** What TrimStart removes is whitespace, and what it keeps is a suffix of `s` that does not
      start with whitespace. */
  lemma {:induction false} TrimStartShape(s: string)
    ensures |TrimStart(s)| <= |s| && TrimStart(s) == s[|s| - |TrimStart(s)|..]
    ensures AllWhitespace(s[..|s| - |TrimStart(s)|])
    ensures TrimStart(s) == [] || !IsJsWhitespace(TrimStart(s)[0])
  {
    if s != [] && IsJsWhitespace(s[0]) {
      TrimStartShape(s[1..]);
      var k := |s| - |TrimStart(s)|;
      forall i | 0 <= i < k
        ensures IsJsWhitespace(s[..k][i])
      {
        if i > 0 {
          assert s[..k][i] == s[1..][..k - 1][i - 1];
        }
      }
    }
  }

  /** What TrimEnd removes is whitespace, and what it keeps is a prefix of `s` that does not
      end with whitespace. */
  lemma {:induction false} TrimEndShape(s: string)
    ensures |TrimEnd(s)| <= |s| && TrimEnd(s) == s[..|TrimEnd(s)|]
    ensures AllWhitespace(s[|TrimEnd(s)|..])
    ensures TrimEnd(s) == [] || !IsJsWhitespace(TrimEnd(s)[|TrimEnd(s)| - 1])
  {
    if s != [] && IsJsWhitespace(s[|s| - 1]) {
      var init := s[..|s| - 1];
      TrimEndShape(init);
      var k := |TrimEnd(s)|;
      forall j | 0 <= j < |s| - k
        ensures IsJsWhitespace(s[k..][j])
      {
        if k + j < |s| - 1 {
          assert s[k..][j] == init[k..][j];
        }
      }
    }
  }

  /** `s.trim()` is the part of `s` between a whitespace prefix and a whitespace suffix; with
      the end conditions of Trim this fixes its value. */
  lemma {:induction false} TrimShape(s: string)
    ensures exists i, j :: 0 <= i <= j <= |s| && Trim(s) == s[i..j]
                           && AllWhitespace(s[..i]) && AllWhitespace(s[j..])
  {
    var t := TrimStart(s);
    TrimStartShape(s);
    TrimEndShape(t);
    var i := |s| - |t|;
    var j := i + |Trim(s)|;
    assert t == s[i..];
    assert Trim(s) == s[i..j];
    assert t[|Trim(s)|..] == s[j..];
  }

  /** `s.trim()` is empty exactly when every character of `s` is whitespace. */
  lemma {:induction false} BlankIffAllWhitespace(s: string)
    ensures Trim(s) == [] <==> AllWhitespace(s)
  {
    var t := TrimStart(s);
    TrimStartShape(s);
    TrimEndShape(t);
    var k := |s| - |t|;
    assert t == s[k..];
    if AllWhitespace(s) {
      if t != [] {
        assert false;
      }
    }
    if Trim(s) == [] {
      assert TrimEnd(t) == [];
      assert AllWhitespace(t[0..]);
      assert t == [];
      forall i | 0 <= i < |s|
        ensures IsJsWhitespace(s[i])
      {
        assert s[i] == s[..k][i];
      }
    }
  }

  /** Lower-casing never turns whitespace into text or text into whitespace, so it keeps blankness. */
  lemma {:induction false} LowerKeepsBlank(s: string)
    ensures IsBlank(Lower(s)) <==> IsBlank(s)
  {
    BlankIffAllWhitespace(s);
    BlankIffAllWhitespace(Lower(s));
    var l := Lower(s);
    forall i | 0 <= i < |s|
      ensures IsJsWhitespace(l[i]) <==> IsJsWhitespace(s[i])
    {
      LowerCharKeepsWhitespace(s[i]);
    }
  }

  /** No upper-case letter is whitespace, and neither is its lower-case partner. */
  lemma LowerCharKeepsWhitespace(c: char)
    ensures IsJsWhitespace(LowerChar(c)) <==> IsJsWhitespace(c)
  {
    if IsUpper(c) {
      var d := LowerChar(c);
      assert 'a' as int <= d as int <= 'z' as int || 0xE0 <= d as int <= 0xFE;
    }
  }

  // ---------------------------------------------------------------------------
  // Substring search (String.prototype.includes)
  // ---------------------------------------------------------------------------

  /** `part` occurs in `text` starting at index `i`. */
  predicate OccursAt(text: string, part: string, i: int) {
    0 <= i && i + |part| <= |text| && text[i..i + |part|] == part
  }

  /** `part` occurs in `text` at some position. */
  ghost predicate OccursIn(text: string, part: string) {
    exists i :: OccursAt(text, part, i)
  }

  /** `text.includes(part)`: scans the start positions from left to right. The empty string is
      included in every string, every string includes itself, and nothing longer than `text`
      is included in it. */
  function Contains(text: string, part: string): (b: bool)
    ensures b ==> |part| <= |text|
    ensures part == [] ==> b
    ensures |part| <= |text| && text[..|part|] == part ==> b
    decreases |text|
  {
    if |part| > |text| then false
    else if text[..|part|] == part then true
    else Contains(text[1..], part)
  }

  /** The scan finds `part` exactly when some start position holds it. */
  lemma {:induction false} ContainsIffOccurs(text: string, part: string)
    ensures Contains(text, part) <==> exists i :: OccursAt(text, part, i)
    decreases |text|
  {
    if |part| > |text| {
      assert forall i :: !OccursAt(text, part, i);
    } else if text[..|part|] == part {
      assert OccursAt(text, part, 0);
    } else {
      var rest := text[1..];
      ContainsIffOccurs(rest, part);
      forall i | OccursAt(text, part, i)
        ensures OccursAt(rest, part, i - 1)
      {
        assert i != 0;
        assert rest[i - 1..i - 1 + |part|] == text[i..i + |part|];
      }
      forall j | OccursAt(rest, part, j)
        ensures OccursAt(text, part, j + 1)
      {
        assert rest[j..j + |part|] == text[j + 1..j + 1 + |part|];
      }
    }
  }

  /** Substring containment is transitive: a part of a part of `text` is a part of `text`. */
  lemma ContainsTransitive(text: string, middle: string, part: string)
    requires Contains(text, middle) && Contains(middle, part)
    ensures Contains(text, part)
  {
    ContainsIffOccurs(text, middle);
    ContainsIffOccurs(middle, part);
    ContainsIffOccurs(text, part);
    var i :| OccursAt(text, middle, i);
    var j :| OccursAt(middle, part, j);
    forall k | 0 <= k < |part|
      ensures text[i + j + k] == part[k]
    {
      assert part[k] == middle[j + k];
      assert middle[j + k] == text[i..i + |middle|][j + k];
    }
    assert text[i + j..i + j + |part|] == part;
    assert OccursAt(text, part, i + j);
  }

  /** Whatever `text` contains is made of characters of `text`: a part of an all-whitespace
      string is all whitespace. */
  lemma WhitespaceParts(text: string, part: string)
    requires Contains(text, part) && AllWhitespace(text)
    ensures AllWhitespace(part)
  {
    ContainsIffOccurs(text, part);
    var i :| OccursAt(text, part, i);
    forall k | 0 <= k < |part|
      ensures IsJsWhitespace(part[k])
    {
      assert part[k] == text[i + k];
    }
  }

  // ---------------------------------------------------------------------------
  // Decimal rendering of a status code (`${response.status}`)
  // ---------------------------------------------------------------------------

  predicate IsDigit(c: char) {
    '0' <= c <= '9'
  }

  function DigitValue(c: char): (d: nat)
    requires IsDigit(c)
    ensures d < 10
  {
    c as int - '0' as int
  }

  function DigitChar(d: nat): (c: char)
    requires d < 10
    ensures IsDigit(c) && DigitValue(c) == d
  {
    ('0' as int + d) as char
  }

  /** The shortest decimal numeral of `n`: digits only, and no leading zero unless `n` is zero. */
  function Decimal(n: nat): (s: string)
    ensures |s| >= 1
    ensures forall i :: 0 <= i < |s| ==> IsDigit(s[i])
    ensures s[0] == '0' ==> n == 0
  {
    if n < 10 then [DigitChar(n)] else Decimal(n / 10) + [DigitChar(n % 10)]
  }

  /** Reads a numeral back, most significant digit first. */
  function DecimalValue(s: string): (n: nat)
    requires forall i :: 0 <= i < |s| ==> IsDigit(s[i])
  {
    if s == [] then 0 else 10 * DecimalValue(s[..|s| - 1]) + DigitValue(s[|s| - 1])
  }

  /** The numeral names the number it was made from, so distinct statuses give distinct numerals. */
  lemma {:induction false} DecimalRoundTrip(n: nat)
    ensures DecimalValue(Decimal(n)) == n
  {
    if n >= 10 {
      var s := Decimal(n);
      DecimalRoundTrip(n / 10);
      assert s[..|s| - 1] == Decimal(n / 10);
    }
  }
}
