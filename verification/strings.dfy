/**
 * The string operations the dashboard applies to column names and cells:
 * `str.lower()`, the `in` substring test, and `str.replace(',', '')`.
 */
module Strings {
  import opened Seqs

  /** Lower-cases an ASCII capital; every other character is unchanged. */
  function LowerChar(c: char): char {
    if 'A' <= c <= 'Z' then (c as int - 'A' as int + 'a' as int) as char else c
  }

  function Lower(s: string): string {
    seq(|s|, i requires 0 <= i < |s| => LowerChar(s[i]))
  }

  /** `sub` occurs in `s` starting at position `i`. */
  ghost predicate OccursAt(s: string, sub: string, i: int) {
    0 <= i && i + |sub| <= |s| && s[i..i + |sub|] == sub
  }

  predicate IsPrefix(p: string, s: string) {
    |p| <= |s| && s[..|p|] == p
  }

  /** Python's `sub in s`, scanning the start positions left to right. */
  predicate Contains(s: string, sub: string)
    decreases |s|
  {
    IsPrefix(sub, s) || (|s| > 0 && Contains(s[1..], sub))
  }

  /** An occurrence anywhere is found by the scan. */
  lemma {:induction false} OccursContains(s: string, sub: string, i: int)
    requires OccursAt(s, sub, i)
    ensures Contains(s, sub)
    decreases i
  {
    if i == 0 {
      assert s[..|sub|] == s[0..|sub|];
    } else {
      assert s[1..][i - 1..i - 1 + |sub|] == s[i..i + |sub|];
      OccursContains(s[1..], sub, i - 1);
    }
  }

  /** What the scan finds is an occurrence. */
  lemma {:induction false} ContainsOccurs(s: string, sub: string)
    requires Contains(s, sub)
    ensures exists i :: OccursAt(s, sub, i)
    decreases |s|
  {
    if IsPrefix(sub, s) {
      assert OccursAt(s, sub, 0);
    } else {
      ContainsOccurs(s[1..], sub);
      var j :| OccursAt(s[1..], sub, j);
      assert s[1..][j..j + |sub|] == s[j + 1..j + 1 + |sub|];
      assert OccursAt(s, sub, j + 1);
    }
  }

  /** The scan finds `sub` exactly when `sub` occurs somewhere in `s`. */
  lemma ContainsIffOccurs(s: string, sub: string)
    ensures Contains(s, sub) <==> exists i :: OccursAt(s, sub, i)
  {
    if Contains(s, sub) {
      ContainsOccurs(s, sub);
    }
    forall i | OccursAt(s, sub, i) {
      OccursContains(s, sub, i);
    }
  }

  /** If `small` sits inside `big`, every string containing `big` contains `small`. */
  lemma ContainsTransitive(s: string, big: string, small: string, k: int)
    requires OccursAt(big, small, k)
    requires Contains(s, big)
    ensures Contains(s, small)
  {
    ContainsIffOccurs(s, big);
    var i :| OccursAt(s, big, i);
    forall j | 0 <= j < |small|
      ensures s[i + k + j] == small[j]
    {
      assert s[i..i + |big|][k + j] == s[i + k + j];
      assert big[k..k + |small|][j] == big[k + j];
    }
    assert s[i + k..i + k + |small|] == small;
    assert OccursAt(s, small, i + k);
    ContainsIffOccurs(s, small);
  }

  /** Every character of a contained string is a character of the container. */
  lemma ContainedChars(s: string, sub: string, k: int)
    requires Contains(s, sub)
    requires 0 <= k < |sub|
    ensures sub[k] in s
  {
    ContainsIffOccurs(s, sub);
    var i :| OccursAt(s, sub, i);
    assert s[i + k] == s[i..i + |sub|][k];
  }

  /** `s.replace(',', '')`: every comma removed, every other character kept in order. */
  function StripCommas(s: string): (r: string)
    ensures ',' !in r
    ensures IsSubseq(r, s)
    ensures multiset(r) == multiset(s)[',' := 0]
  {
    SelectCounts(s, c => c != ',');
    Select(s, c => c != ',')
  }

  /** A string without commas is left as it is. */
  lemma NoCommaUnchanged(s: string)
    requires ',' !in s
    ensures StripCommas(s) == s
  {
    SelectAll(s, c => c != ',');
  }

  /** Stripping is idempotent. */
  lemma StripCommasIdempotent(s: string)
    ensures StripCommas(StripCommas(s)) == StripCommas(s)
  {
    NoCommaUnchanged(StripCommas(s));
  }

  /** Stripping works piecewise, so it is determined by what it does to one character. */
  lemma StripCommasAppend(a: string, b: string)
    ensures StripCommas(a + b) == StripCommas(a) + StripCommas(b)
  {
    SelectAppend(a, b, c => c != ',');
  }

  /** Stripping the comma out of `head + "," + tail`, both comma-free. */
  lemma StripOneComma(head: string, tail: string)
    requires ',' !in head && ',' !in tail
    ensures StripCommas(head + [','] + tail) == head + tail
  {
    assert head + [','] + tail == head + ([','] + tail);
    StripCommasAppend(head, [','] + tail);
    StripCommasAppend([','], tail);
    NoCommaUnchanged(head);
    NoCommaUnchanged(tail);
  }

  /** A thousands separator disappears: "1,234.5" becomes "1234.5". */
  lemma StripThousandsSeparator()
    ensures StripCommas("1,234.5") == "1234.5"
  {
    assert "1" + [','] + "234.5" == "1,234.5";
    assert "1" + "234.5" == "1234.5";
    StripOneComma("1", "234.5");
  }

  /** A decimal comma disappears too: "10,5" becomes "105", not "10.5". */
  lemma StripDecimalComma()
    ensures StripCommas("10,5") == "105"
  {
    assert "10" + [','] + "5" == "10,5";
    assert "10" + "5" == "105";
    StripOneComma("10", "5");
  }
}
