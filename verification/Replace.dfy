/** `Util::replace_all` and the substring search it uses. */
module Replace {
  import opened Text

  /** `std::string::find`: the first place at or after `from` where `part` stands. */
  function Find(s: string, part: string, from: nat): (r: Option<nat>)
    requires from <= |s|
    ensures r.Some? ==> from <= r.value && Occurs(s, r.value, part)
    ensures r.Some? ==> forall k :: from <= k < r.value ==> !Occurs(s, k, part)
    ensures r.None? ==> forall k :: from <= k <= |s| ==> !Occurs(s, k, part)
    decreases |s| - from
  {
    if Occurs(s, from, part) then Some(from)
    else if from == |s| then None
    else Find(s, part, from + 1)
  }

  /** Every leftmost, non-overlapping `from` replaced by `to`. */
  function Replaced(s: string, from: string, to: string): string
    requires from != ""
    decreases |s|
  {
    if s == "" then ""
    else if from <= s then to + Replaced(s[|from|..], from, to)
    else [s[0]] + Replaced(s[1..], from, to)
  }

  /** Text in front of the first occurrence is kept. */
  lemma {:induction false} ReplacedSkip(s: string, from: string, to: string, k: nat)
    requires from != "" && k <= |s| && forall i :: 0 <= i < k ==> !(from <= s[i..])
    ensures Replaced(s, from, to) == s[..k] + Replaced(s[k..], from, to)
    decreases k
  {
    if k > 0 {
      assert s[0..] == s;
      forall i | 0 <= i < k - 1
        ensures !(from <= s[1..][i..])
      {
        assert s[1..][i..] == s[i + 1..];
      }
      assert Replaced(s, from, to) == [s[0]] + Replaced(s[1..], from, to);
      hide Replaced;
      ReplacedSkip(s[1..], from, to, k - 1);
      assert s[1..][k - 1..] == s[k..];
      assert s[..k] == [s[0]] + s[1..][..k - 1];
    } else {
      assert s[..0] + s[0..] == s;
      assert s[0..] == s;
    }
  }

  lemma OccursIsPrefix(s: string, k: nat, part: string)
    requires k <= |s|
    ensures Occurs(s, k, part) <==> part <= s[k..]
  {
    if k + |part| <= |s| {
      assert s[k..][..|part|] == s[k..k + |part|];
    }
  }

  /** A text without the pattern is left alone. */
  lemma ReplacedAbsent(s: string, from: string, to: string)
    requires from != "" && forall k :: 0 <= k < |s| ==> !(from <= s[k..])
    ensures Replaced(s, from, to) == s
  {
    ReplacedSkip(s, from, to, |s|);
    assert s[|s|..] == "";
    assert s[..|s|] + "" == s;
  }

  lemma ReplacedHere(s: string, from: string, to: string)
    requires from != "" && from <= s
    ensures Replaced(s, from, to) == to + Replaced(s[|from|..], from, to)
  {}

  lemma {:induction false} FirstReplaced(s: string, from: string, to: string, k: nat)
    requires from != "" && k <= |s| && from <= s[k..] && forall i :: 0 <= i < k ==> !(from <= s[i..])
    ensures k + |from| <= |s|
    ensures Replaced(s, from, to) == s[..k] + to + Replaced(s[k + |from|..], from, to)
  {
    hide Replaced;
    ReplacedSkip(s, from, to, k);
    ReplacedHere(s[k..], from, to);
    assert s[k..][|from|..] == s[k + |from|..];
    Assoc(s[..k], to, Replaced(s[k + |from|..], from, to));
  }

  /** Searching behind a finished part is searching the rest. */
  lemma FindInRest(done: string, rest: string, part: string)
    ensures var found := Find(done + rest, part, |done|);
      if found.None? then forall k :: 0 <= k <= |rest| ==> !(part <= rest[k..])
      else
        && 0 <= found.value - |done| <= |rest| && part <= rest[found.value - |done|..]
        && forall k :: 0 <= k < found.value - |done| ==> !(part <= rest[k..])
  {
    forall k | 0 <= k <= |rest|
      ensures Occurs(done + rest, |done| + k, part) <==> part <= rest[k..]
    {
      OccursIsPrefix(done + rest, |done| + k, part);
      assert (done + rest)[|done| + k..] == rest[k..];
    }
  }

  /** One round of the loop: the part in front of the match and the replacement are finished. */
  lemma Round(done: string, rest: string, from: string, to: string, k: nat)
    requires from != "" && k <= |rest| && from <= rest[k..] && forall i :: 0 <= i < k ==> !(from <= rest[i..])
    ensures k + |from| <= |rest|
    ensures done + Replaced(rest, from, to) == (done + (rest[..k] + to)) + Replaced(rest[k + |from|..], from, to)
  {
    hide Replaced;
    FirstReplaced(rest, from, to, k);
    Assoc(done, rest[..k] + to, Replaced(rest[k + |from|..], from, to));
  }

  lemma Splice(done: string, rest: string, from: string, to: string, k: nat)
    requires k + |from| <= |rest|
    ensures var source, p := done + rest, |done| + k;
      source[..p] + to + source[p + |from|..] == (done + (rest[..k] + to)) + rest[k + |from|..]
  {
    assert (done + rest)[..|done| + k] == done + rest[..k];
    assert (done + rest)[|done| + k + |from|..] == rest[k + |from|..];
  }

  method ReplaceAll(text: string, from: string, to: string) returns (source: string)
    requires from != ""
    ensures source == Replaced(text, from, to)
  {
    hide Replaced, Find;
    source := text;
    var position := 0;
    var found := Find(source, from, position);
    ghost var done, rest := "", text;
    assert source == done + rest;
    while found.Some?
      invariant source == done + rest && position == |done| && found == Find(source, from, position)
      invariant Replaced(text, from, to) == done + Replaced(rest, from, to)
      decreases |rest|
    {
      ghost var k := found.value - position;
      Round(done, rest, from, to, k) by {
        FindInRest(done, rest, from);
      }
      Splice(done, rest, from, to, k);
      position := found.value;
      source := source[..position] + to + source[position + |from|..];
      position := position + |to|;
      done, rest := done + (rest[..k] + to), rest[k + |from|..];
      found := Find(source, from, position);
    }
    FindInRest(done, rest, from);
    ReplacedAbsent(rest, from, to);
  }
}
