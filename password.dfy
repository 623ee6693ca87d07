/** The password criteria of solve4.py, read on the decimal text of a
    number: digits that never decrease, with a pair of equal adjacent digits
    (first criteria) or with a run of exactly two equal digits (second
    criteria), and the ascending scan of a range for the numbers that meet
    one of them. */
module Password {
  import Decimal

  /** `any(ch1 == ch2 for ch1, ch2 in zip(s, s[1:]))`. */
  predicate HasAdjacentPair(s: string) {
    exists i :: 0 <= i < |s| - 1 && s[i] == s[i + 1]
  }

  /** `not any(ch1 > ch2 for ch1, ch2 in zip(s, s[1:]))`. */
  predicate NeverDecreases(s: string) {
    forall i :: 0 <= i < |s| - 1 ==> s[i] <= s[i + 1]
  }

  /** Characters that never decrease from one to the next are sorted. */
  lemma {:induction false} NeverDecreasesSorted(s: string, i: nat, j: nat)
    requires NeverDecreases(s) && i <= j < |s|
    ensures s[i] <= s[j]
    decreases j - i
  {
    if i < j {
      NeverDecreasesSorted(s, i + 1, j);
    }
  }

  /** `test_criteria1` on the text of the number. */
  predicate Criteria1(s: string) {
    HasAdjacentPair(s) && NeverDecreases(s)
  }

  /** `test_criteria1(n)`. */
  predicate TestCriteria1(n: int) {
    Criteria1(Decimal.IntToString(n))
  }

  /** The length of the run of characters equal to the first one. */
  function LeadRun(s: string): (k: nat)
    requires s != []
    ensures 1 <= k <= |s|
    ensures forall i :: 0 <= i < k ==> s[i] == s[0]
    ensures k < |s| ==> s[k] != s[0]
  {
    if |s| == 1 || s[1] != s[0] then 1
    else
      var k := LeadRun(s[1..]);
      assert forall i :: 1 <= i < |s| ==> s[i] == s[1..][i - 1];
      1 + k
  }

  /** `groupby(s)`: each maximal run of equal characters with its length. */
  function Groups(s: string): (groups: seq<(char, nat)>)
    ensures forall k :: 0 <= k < |groups| ==> groups[k].1 >= 1
    decreases |s|
  {
    if s == [] then []
    else [(s[0], LeadRun(s))] + Groups(s[LeadRun(s)..])
  }

  /** The groups spell the text back. */
  function Ungroup(groups: seq<(char, nat)>): string {
    if groups == [] then "" else seq(groups[0].1, _ => groups[0].0) + Ungroup(groups[1..])
  }

  /** `groupby` loses nothing. */
  lemma {:induction false} GroupsSpellText(s: string)
    ensures Ungroup(Groups(s)) == s
    decreases |s|
  {
    if s != [] {
      var k := LeadRun(s);
      var rest := Groups(s[k..]);
      GroupsCons(s);
      GroupsSpellText(s[k..]);
      UngroupCons(s[0], k, rest);
      LeadRunRepeats(s);
      SplitAt(s, k);
    }
  }

  lemma SplitAt(s: string, k: nat)
    requires k <= |s|
    ensures s[..k] + s[k..] == s
  {
  }

  lemma GroupsCons(s: string)
    requires s != []
    ensures Groups(s) == [(s[0], LeadRun(s))] + Groups(s[LeadRun(s)..])
  {
  }

  lemma UngroupCons(c: char, k: nat, rest: seq<(char, nat)>)
    ensures Ungroup([(c, k)] + rest) == seq(k, _ => c) + Ungroup(rest)
  {
    assert ([(c, k)] + rest)[1..] == rest;
  }

  lemma LeadRunRepeats(s: string)
    requires s != []
    ensures seq(LeadRun(s), _ => s[0]) == s[..LeadRun(s)]
  {
  }

  /** `groupby` never puts two groups of the same character side by side. */
  lemma {:induction false} GroupsMaximal(s: string)
    ensures forall j :: 0 <= j < |Groups(s)| - 1 ==> Groups(s)[j].0 != Groups(s)[j + 1].0
    decreases |s|
  {
    if s != [] {
      var k := LeadRun(s);
      var rest := Groups(s[k..]);
      GroupsMaximal(s[k..]);
      if rest != [] {
        assert rest[0].0 == s[k..][0] == s[k];
      }
      assert forall j :: 1 <= j < |Groups(s)| ==> Groups(s)[j] == rest[j - 1];
    }
  }

  /** `2 in (len(list(it)) for ch, it in groupby(s))`. */
  predicate HasGroupOfTwo(s: string) {
    exists k :: 0 <= k < |Groups(s)| && Groups(s)[k].1 == 2
  }

  /** Characters `i` and `i + 1` are equal, and their neighbours differ. */
  predicate ExactPairAt(s: string, i: int) {
    0 <= i < |s| - 1 && s[i] == s[i + 1] &&
    (i == 0 || s[i - 1] != s[i]) && (i + 2 == |s| || s[i + 2] != s[i])
  }

  /** A group of two is a pair of equal characters whose neighbours differ. */
  lemma {:induction false} GroupOfTwoIsExactPair(s: string)
    ensures HasGroupOfTwo(s) <==> exists i :: ExactPairAt(s, i)
    decreases |s|
  {
    if s != [] {
      var k := LeadRun(s);
      var t := s[k..];
      GroupOfTwoIsExactPair(t);
      GroupOfTwoStep(s);
      if k == 2 {
        assert ExactPairAt(s, 0);
      }
      forall i | ExactPairAt(s, i)
        ensures k == 2 || ExactPairAt(t, i - k)
      {
        if i < k {
          ExactPairInLead(s, i);
        } else {
          ExactPairShift(s, k, i);
        }
      }
      forall i | ExactPairAt(t, i)
        ensures ExactPairAt(s, i + k)
      {
        ExactPairShift(s, k, i + k);
      }
    }
  }

  /** A group of two is the first group or a group of two of the rest. */
  lemma GroupOfTwoStep(s: string)
    requires s != []
    ensures HasGroupOfTwo(s) <==> LeadRun(s) == 2 || HasGroupOfTwo(s[LeadRun(s)..])
  {
    var k := LeadRun(s);
    var t := s[k..];
    var g := Groups(s);
    assert g == [(s[0], k)] + Groups(t);
    assert forall j :: 1 <= j < |g| ==> g[j] == Groups(t)[j - 1];
    if HasGroupOfTwo(t) {
      var j :| 0 <= j < |Groups(t)| && Groups(t)[j].1 == 2;
      assert g[j + 1].1 == 2;
    }
    if k == 2 {
      assert g[0].1 == 2;
    }
    if HasGroupOfTwo(s) {
      var j :| 0 <= j < |g| && g[j].1 == 2;
      if j > 0 {
        assert Groups(t)[j - 1].1 == 2;
      }
    }
  }

  /** An exact pair inside the first run is the whole of a run of two. */
  lemma ExactPairInLead(s: string, i: int)
    requires s != [] && ExactPairAt(s, i) && i < LeadRun(s)
    ensures i == 0 && LeadRun(s) == 2
  {
  }

  /** Past the first run, an exact pair of `s` is one of the rest, shifted. */
  lemma ExactPairShift(s: string, k: nat, i: int)
    requires s != [] && k == LeadRun(s) && k <= i
    ensures ExactPairAt(s, i) <==> ExactPairAt(s[k..], i - k)
  {
    if i == k && i < |s| {
      assert s[i - 1] == s[0] != s[i];
    }
  }

  /** `test_criteria2` on the text of the number. */
  predicate Criteria2(s: string) {
    HasGroupOfTwo(s) && NeverDecreases(s)
  }

  /** `test_criteria2(n)`. */
  predicate TestCriteria2(n: int) {
    Criteria2(Decimal.IntToString(n))
  }

  /** The second criteria holds exactly when some pair of equal characters
      has different neighbours, and the digits never decrease. */
  lemma Criteria2Iff(s: string)
    ensures Criteria2(s) <==> (exists i :: ExactPairAt(s, i)) && NeverDecreases(s)
  {
    GroupOfTwoIsExactPair(s);
  }

  /** Every number that meets the second criteria meets the first. */
  lemma Criteria2ImpliesCriteria1(n: int)
    ensures TestCriteria2(n) ==> TestCriteria1(n)
  {
    var s := Decimal.IntToString(n);
    GroupOfTwoIsExactPair(s);
    if TestCriteria2(n) {
      var i :| ExactPairAt(s, i);
      assert s[i] == s[i + 1];
    }
  }

  /** `find_matching(begin, end, test_criteria)`: the numbers of
      `range(begin, end + 1)` that pass the test, in order. */
  function FindMatching(begin: int, end: int, test: int -> bool): (r: seq<int>)
    ensures forall n :: n in r <==> begin <= n <= end && test(n)
    ensures forall i, j :: 0 <= i < j < |r| ==> r[i] < r[j]
    decreases end + 1 - begin
  {
    if begin > end then []
    else
      var rest := FindMatching(begin + 1, end, test);
      forall j | 0 <= j < |rest|
        ensures begin < rest[j]
      {
        assert rest[j] in rest;
      }
      if test(begin) then [begin] + rest else rest
  }
}
