/** Shared vocabulary: optional values, C strings and slices of a text. */
module Text {
  datatype Option<+T> = None | Some(value: T)

  const NUL: char := '\0'

  /** A C string without its terminator: none of its characters is NUL. */
  predicate NulFree(s: string) {
    NUL !in s
  }

  /** The character a C pointer sees at `i`: the terminator stands one past the end. */
  function At(text: string, i: nat): char
    requires i <= |text|
  {
    if i < |text| then text[i] else NUL
  }

  /** What `std::string(const char*)` keeps of a buffer: everything before the first NUL. */
  function CString(s: string): (r: string)
    ensures NulFree(r) && r <= s
    ensures |r| < |s| ==> s[|r|] == NUL
  {
    if s == [] || s[0] == NUL then ""
    else
      var rest := CString(s[1..]);
      assert s == [s[0]] + s[1..];
      [s[0]] + rest
  }

  /** A text without NUL loses nothing as a C string, and only such a text. */
  lemma CStringWhole(s: string)
    ensures CString(s) == s <==> NulFree(s)
  {
    if !NulFree(s) {
      assert NulFree(CString(s));
    } else {
      assert |CString(s)| == |s|;
    }
  }

  /** `part` stands in `text` at offset `it`. */
  predicate Occurs(text: string, it: nat, part: string) {
    it + |part| <= |text| && text[it..it + |part|] == part
  }

  /** An occurrence of a concatenation is two adjacent occurrences. */
  lemma OccursSplit(text: string, it: nat, a: string, b: string)
    ensures Occurs(text, it, a + b) <==> Occurs(text, it, a) && Occurs(text, it + |a|, b)
  {
    if Occurs(text, it, a + b) {
      assert text[it..it + |a|] == (a + b)[..|a|] == a;
      assert text[it + |a|..it + |a| + |b|] == (a + b)[|a|..] == b;
    }
    if Occurs(text, it, a) && Occurs(text, it + |a|, b) {
      assert text[it..it + |a| + |b|] == text[it..it + |a|] + text[it + |a|..it + |a| + |b|];
    }
  }

  lemma OccursSelf(text: string)
    ensures Occurs(text, 0, text)
  {}

  predicate Orders(order: seq<string>, keys: set<string>) {
    && (forall a, b :: 0 <= a < b < |order| ==> order[a] != order[b])
    && (forall k <- order :: k in keys)
    && (forall k <- keys :: k in order)
  }

  /** `n` copies of `c`. */
  function Repeat(c: char, n: nat): (r: string)
    ensures |r| == n && forall k :: 0 <= k < n ==> r[k] == c
  {
    seq(n, _ => c)
  }

  lemma Assoc(a: string, b: string, c: string)
    ensures a + (b + c) == (a + b) + c
  {}

  lemma LoneOccurs(text: string, it: nat, c: char)
    requires Occurs(text, it, [c])
    ensures it < |text| && text[it] == c
  {
    assert text[it] == text[it..it + 1][0];
  }

  lemma Inside(text: string, it: nat, s: string)
    requires Occurs(text, it, s)
    ensures it + |s| <= |text|
  {}

  lemma FourParts(text: string, it: nat, a: string, b: string, c: string, d: string)
    requires Occurs(text, it, a + b + c + d)
    ensures Occurs(text, it, a) && Occurs(text, it + |a|, b) && Occurs(text, it + |a| + |b|, c)
    ensures Occurs(text, it + |a| + |b| + |c|, d) && it + |a + b + c + d| == it + |a| + |b| + |c| + |d| <= |text|
  {
    Inside(text, it, a + b + c + d);
    hide Occurs;
    OccursSplit(text, it, a + b + c, d);
    OccursSplit(text, it, a + b, c);
    OccursSplit(text, it, a, b);
  }

  lemma FirstOccurs(text: string, it: nat, c: char, part: string)
    requires Occurs(text, it, [c] + part)
    ensures it < |text| && text[it] == c && Occurs(text, it + 1, part)
  {
    OccursSplit(text, it, [c], part);
    assert text[it] == text[it..it + 1][0];
  }
}
