/** Suffixed names: X, X_2, X_3, ... cut to the length of the name column. Names are ASCII without line breaks. */
module LibraryNames {
  import opened Wrappers

  const NAME_MAX_LENGTH: nat := 20

  // ---------------------------------------------------------------- characters

  predicate IsDigit(c: char) { '0' <= c <= '9' }

  function LowerChar(c: char): char {
    if 'A' <= c <= 'Z' then c - 'A' + 'a' else c
  }

  /** LOWER of the database. */
  function Lower(s: string): (r: string)
    ensures |r| == |s| && forall i :: 0 <= i < |s| ==> r[i] == LowerChar(s[i])
  {
    seq(|s|, i requires 0 <= i < |s| => LowerChar(s[i]))
  }

  /** Upper-case letters become the lower-case ones in the same place of the alphabet, all else stays. */
  lemma LowerCharIs(c: char)
    ensures var upper, lower := "ABCDEFGHIJKLMNOPQRSTUVWXYZ", "abcdefghijklmnopqrstuvwxyz";
            && (forall k :: 0 <= k < 26 ==> upper[k] == c ==> LowerChar(c) == lower[k])
            && (c !in upper ==> LowerChar(c) == c)
  {
    if 'A' <= c <= 'Z' {
      Letter(c as int - 'A' as int);
    }
    forall k | 0 <= k < 26 {
      Letter(k);
    }
  }

  lemma Letter(k: nat)
    requires k < 26
    ensures "ABCDEFGHIJKLMNOPQRSTUVWXYZ"[k] as int == 'A' as int + k
    ensures "abcdefghijklmnopqrstuvwxyz"[k] as int == 'a' as int + k
  {
  }

  predicate AllDigits(s: string) { forall i :: 0 <= i < |s| ==> IsDigit(s[i]) }

  function DigitChar(d: nat): char
    requires d < 10
  {
    '0' + d as char
  }

  /** The decimal digits of a number. */
  function Digits(n: nat): (s: string)
    ensures s != [] && AllDigits(s)
  {
    if n < 10 then [DigitChar(n)] else Digits(n / 10) + [DigitChar(n % 10)]
  }

  /** The number that a string of digits writes. */
  function Value(s: string): nat
    requires AllDigits(s)
  {
    if s == [] then 0 else 10 * Value(s[..|s| - 1]) + (s[|s| - 1] - '0') as nat
  }

  lemma {:induction false} ValueOfDigits(n: nat)
    ensures Value(Digits(n)) == n
  {
    if n >= 10 {
      ValueOfDigits(n / 10);
      assert Digits(n)[..|Digits(n)| - 1] == Digits(n / 10);
    }
  }

  lemma DigitsExamples()
    ensures Digits(2) == "2" && Digits(10) == "10" && Digits(205) == "205"
  {
    assert Digits(20) == "20";
  }

  // ---------------------------------------------------------------- the suffix

  /** How many digits the string ends with. */
  function TrailingDigits(s: string): (n: nat)
    ensures n <= |s| && forall j :: |s| - n <= j < |s| ==> IsDigit(s[j])
    ensures n < |s| ==> !IsDigit(s[|s| - n - 1])
  {
    if s == [] || !IsDigit(s[|s| - 1]) then 0 else 1 + TrailingDigits(s[..|s| - 1])
  }

  /** The pattern matches at i: an underscore, then one or more digits to the end. */
  predicate MatchesAt(s: string, i: nat) {
    i + 1 < |s| && s[i] == '_' && forall j :: i < j < |s| ==> IsDigit(s[j])
  }

  /** Where the pattern matches; it matches nowhere else. */
  function SuffixStart(s: string): (r: Option<nat>)
    ensures r.Some? ==> MatchesAt(s, r.value)
    ensures forall i: nat :: MatchesAt(s, i) <==> r == Some(i)
  {
    var n := TrailingDigits(s);
    if n >= 1 && n < |s| && s[|s| - n - 1] == '_' then Some(|s| - n - 1) else None
  }

  /** The number after the suffix, 1 for a name without suffix. */
  function Number(s: string): nat {
    var m := SuffixStart(s);
    if m.Some? then Value(s[m.value + 1..]) else 1
  }

  function Stem(s: string): string {
    var m := SuffixStart(s);
    if m.Some? then s[..m.value] else s
  }

  /** The slice s[:n] of the source: a negative end counts from the back. */
  function Slice(s: string, n: int): (r: string)
    ensures r <= s
  {
    if n >= |s| then s else if n >= 0 then s[..n] else if |s| + n >= 0 then s[..|s| + n] else []
  }

  function Suffix(n: nat): string { "_" + Digits(n) }

  function IncrementSuffix(s: string): string {
    var suffix := Suffix(Number(s) + 1);
    Slice(Stem(s), NAME_MAX_LENGTH - |suffix|) + suffix
  }

  lemma SuffixIsFound(stem: string, n: nat)
    ensures Number(stem + Suffix(n)) == n
  {
    var s := stem + Suffix(n);
    assert s[|stem| + 1..] == Digits(n);
    assert MatchesAt(s, |stem|);
    ValueOfDigits(n);
  }

  /** A name without the pattern is its own stem and counts as number 1. */
  lemma PlainName(s: string)
    requires forall i: nat :: !MatchesAt(s, i)
    ensures Stem(s) == s && Number(s) == 1
  {
    assert SuffixStart(s).None?;
  }

  /** A stem, an underscore and digits are taken apart again. */
  lemma SuffixedName(stem: string, digits: string)
    requires digits != [] && AllDigits(digits)
    ensures Stem(stem + "_" + digits) == stem && Number(stem + "_" + digits) == Value(digits)
  {
    var s := stem + "_" + digits;
    assert s[|stem| + 1..] == digits && s[..|stem|] == stem;
    assert MatchesAt(s, |stem|);
  }

  function Smaller(a: int, b: int): int { if a < b then a else b }

  /** The name is the longest prefix of the stem that leaves room in the column, then the suffix. */
  predicate IsSuffixed(stem: string, n: nat, name: string) {
    var suffix := "_" + Digits(n);
    |suffix| <= NAME_MAX_LENGTH && name == stem[..Smaller(|stem|, NAME_MAX_LENGTH - |suffix|)] + suffix
  }

  /** The next name keeps as much of the stem as fits, and counts one further. */
  lemma NextName(s: string)
    requires Number(s) + 1 < Pow10(19)
    ensures IsSuffixed(Stem(s), Number(s) + 1, IncrementSuffix(s))
  {
    hide Number, Stem, Pow10;
    DigitsAtMost(Number(s) + 1, 19);
  }

  /** X becomes X_2. */
  lemma FirstSuffix(s: string)
    requires (forall i: nat :: !MatchesAt(s, i)) && |s| + 2 <= NAME_MAX_LENGTH
    ensures IncrementSuffix(s) == s + "_2"
  {
    PlainName(s);
    DigitsExamples();
  }

  /** X_n becomes X_(n + 1). */
  lemma NextSuffix(stem: string, n: nat)
    requires |stem| + 1 + |Digits(n + 1)| <= NAME_MAX_LENGTH
    ensures IncrementSuffix(stem + "_" + Digits(n)) == stem + "_" + Digits(n + 1)
  {
    hide Digits, Number, Stem, Value;
    SuffixedName(stem, Digits(n));
    ValueOfDigits(n);
  }

  /** Whatever is cut off, the next candidate carries the next number. */
  lemma NextNumber(s: string)
    ensures Number(IncrementSuffix(s)) == Number(s) + 1
  {
    hide Number, Stem, Slice, Suffix;
    var suffix := Suffix(Number(s) + 1);
    SuffixIsFound(Slice(Stem(s), NAME_MAX_LENGTH - |suffix|), Number(s) + 1);
  }

  function Nines(k: nat): (s: string)
    ensures |s| == k && AllDigits(s)
  {
    if k == 0 then [] else Nines(k - 1) + ['9']
  }

  function Pow10(k: nat): (n: nat)
    ensures n >= 1
  {
    if k == 0 then 1 else 10 * Pow10(k - 1)
  }

  lemma {:induction false} DigitsAtMost(n: nat, k: nat)
    requires k >= 1
    ensures |Digits(n)| <= k <==> n < Pow10(k)
  {
    if n < 10 {
      assert Pow10(k) >= 10;
    } else if k == 1 {
      assert Digits(n / 10) != [];
    } else {
      DigitsAtMost(n / 10, k - 1);
    }
  }

  lemma {:induction false} Pow10Grows(j: nat, k: nat)
    requires j < k
    ensures Pow10(j) < Pow10(k)
  {
    if j + 1 < k {
      Pow10Grows(j, k - 1);
    }
  }

  /** A string of digits writes less than 10 to the power of its length, and one less only with nines. */
  lemma {:induction false} ValueAtMost(digits: string)
    requires AllDigits(digits)
    ensures Value(digits) < Pow10(|digits|)
    ensures Value(digits) + 1 == Pow10(|digits|) ==> digits == Nines(|digits|)
  {
    if digits != [] {
      ValueAtMost(digits[..|digits| - 1]);
      assert digits == digits[..|digits| - 1] + [digits[|digits| - 1]];
    }
  }

  /** The result fits the column exactly when the next number has at most nineteen digits. */
  lemma FitsIff(s: string)
    ensures |IncrementSuffix(s)| <= NAME_MAX_LENGTH <==> Number(s) + 1 < Pow10(19)
  {
    hide Pow10;
    DigitsAtMost(Number(s) + 1, 19);
  }

  lemma OneMoreDigit(n: nat)
    requires n >= 1
    ensures |Digits(10 * n)| == |Digits(n)| + 1
  {
    assert 10 * n / 10 == n;
  }

  lemma {:induction false} ValueOfNines(k: nat)
    ensures Value(Nines(k)) + 1 == Pow10(k) && |Digits(Pow10(k))| == k + 1
  {
    if k > 0 {
      ValueOfNines(k - 1);
      assert Nines(k)[..k - 1] == Nines(k - 1);
      assert Value(Nines(k)) == 10 * Value(Nines(k - 1)) + 9;
      OneMoreDigit(Pow10(k - 1));
    }
  }

  /** An underscore and k nines are followed by an underscore, a one and k zeros. */
  lemma AfterNines(k: nat)
    requires k >= 1
    ensures IncrementSuffix("_" + Nines(k)) == "_" + Digits(Pow10(k))
    ensures |IncrementSuffix("_" + Nines(k))| == k + 2
  {
    hide Digits, Nines, Pow10;
    ValueOfNines(k);
    NumberAfterUnderscore(Nines(k));
  }

  lemma NumberAfterUnderscore(digits: string)
    requires digits != [] && AllDigits(digits)
    ensures Number("_" + digits) == Value(digits) && Stem("_" + digits) == []
  {
    assert ("_" + digits)[1..] == digits;
    assert MatchesAt("_" + digits, 0);
  }

  /** Among the names that fit the column, the only one whose successor does not is an underscore and nineteen nines. */
  lemma OverflowsIff(s: string)
    requires |s| <= NAME_MAX_LENGTH
    ensures |IncrementSuffix(s)| > NAME_MAX_LENGTH <==> s == "_" + Nines(19)
  {
    hide Nines, Pow10, IncrementSuffix, Value;
    FitsIff(s);
    AfterNines(19);
    var m := SuffixStart(s);
    if m.None? {
      assert Number(s) + 1 < Pow10(19) by { DigitsAtMost(2, 19); }
    } else {
      var digits := s[m.value + 1..];
      ValueAtMost(digits);
      if |digits| < 19 {
        Pow10Grows(|digits|, 19);
      } else {
        assert s == "_" + digits;
      }
    }
  }

  lemma MatchesLower(s: string, i: nat)
    ensures MatchesAt(Lower(s), i) <==> MatchesAt(s, i)
    ensures MatchesAt(s, i) ==> Lower(s)[i + 1..] == s[i + 1..]
  {
    var l := Lower(s);
    assert forall j :: 0 <= j < |s| ==> (IsDigit(l[j]) <==> IsDigit(s[j])) && (l[j] == '_' <==> s[j] == '_');
  }

  /** Lower-casing changes neither the suffix nor the number. */
  lemma NumberOfLower(s: string)
    ensures Number(Lower(s)) == Number(s)
  {
    hide Lower, MatchesAt, SuffixStart;
    if SuffixStart(s).Some? {
      MatchesLower(s, SuffixStart(s).value);
    } else if SuffixStart(Lower(s)).Some? {
      MatchesLower(s, SuffixStart(Lower(s)).value);
    }
  }

  // ---------------------------------------------------------------- candidates

  /** The k-th name that a search starting from `base` tries. */
  function Candidate(base: string, k: nat): string {
    if k == 0 then Slice(base, NAME_MAX_LENGTH) else IncrementSuffix(Candidate(base, k - 1))
  }

  lemma {:induction false} CandidateNumber(base: string, k: nat)
    ensures Number(Lower(Candidate(base, k))) == Number(Candidate(base, k)) == Number(Candidate(base, 0)) + k
  {
    hide IncrementSuffix, Number, Lower, Slice;
    NumberOfLower(Candidate(base, k));
    if k > 0 {
      CandidateNumber(base, k - 1);
      NextNumber(Candidate(base, k - 1));
    }
  }

  lemma {:induction false} DigitsGrow(a: nat, b: nat)
    requires a <= b
    ensures |Digits(a)| <= |Digits(b)|
  {
    if b >= 10 && a >= 10 {
      DigitsGrow(a / 10, b / 10);
    }
  }

  lemma IncrementAgain(stem: string, n: nat, name: string)
    requires IsSuffixed(stem, n, name) && n + 1 < Pow10(19)
    ensures IsSuffixed(stem, n + 1, IncrementSuffix(name))
  {
    hide IncrementSuffix, Number, Stem, Pow10;
    var kept := stem[..Smaller(|stem|, NAME_MAX_LENGTH - |"_" + Digits(n)|)];
    assert name == kept + "_" + Digits(n);
    SuffixedName(kept, Digits(n));
    ValueOfDigits(n);
    NextName(name);
    DigitsGrow(n, n + 1);
  }

  /** All candidates are built on the same stem: the base itself, then ever higher numbers. */
  lemma {:induction false} CandidateIs(base: string, k: nat)
    requires k >= 1 && Number(Candidate(base, 0)) + k < Pow10(19)
    ensures IsSuffixed(Stem(Candidate(base, 0)), Number(Candidate(base, 0)) + k, Candidate(base, k))
  {
    hide IncrementSuffix, Number, Stem, Pow10, IsSuffixed, Slice;
    if k == 1 {
      NextName(Candidate(base, 0));
    } else {
      CandidateIs(base, k - 1);
      IncrementAgain(Stem(Candidate(base, 0)), Number(Candidate(base, 0)) + k - 1, Candidate(base, k - 1));
    }
  }

  /** What the column holds of the base. */
  lemma FirstCandidate(base: string)
    ensures Candidate(base, 0) == base[..Smaller(|base|, NAME_MAX_LENGTH)]
  {
  }

  /** A search never tries the same name twice, not even in another case. */
  lemma CandidatesDiffer(base: string, j: nat, k: nat)
    requires j != k
    ensures Lower(Candidate(base, j)) != Lower(Candidate(base, k))
  {
    CandidateNumber(base, j);
    CandidateNumber(base, k);
  }

  /** The taken names whose number is at least n: the ones a search at number n can still meet. */
  ghost function Ahead(taken: set<string>, n: nat): set<string> {
    set x | x in taken && Number(x) >= n
  }

  /** Meeting a taken name moves past it for good. */
  lemma AheadShrinks(taken: set<string>, name: string, n: nat)
    requires name in taken && Number(name) == n
    ensures |Ahead(taken, n + 1)| < |Ahead(taken, n)|
  {
    assert name in Ahead(taken, n) && name !in Ahead(taken, n + 1);
    SmallerSet(Ahead(taken, n + 1), Ahead(taken, n), name);
  }

  lemma SmallerSet<T>(a: set<T>, b: set<T>, x: T)
    requires a <= b && x in b && x !in a
    ensures |a| < |b|
  {
    assert a <= b - {x};
    SubsetSize(a, b - {x});
  }

  lemma {:induction false} SubsetSize<T>(a: set<T>, b: set<T>)
    requires a <= b
    ensures |a| <= |b|
  {
    if a != {} {
      var x :| x in a;
      SubsetSize(a - {x}, b - {x});
    }
  }

  // ---------------------------------------------------------------- the search

  /** The k-th candidate is the first one that is free or held by an acceptable holder. */
  ghost predicate FirstUsable<T(!new)>(base: string, names: map<string, T>, accept: T -> bool, k: nat) {
    && (Lower(Candidate(base, k)) in names ==> accept(names[Lower(Candidate(base, k))]))
    && forall j: nat :: j < k ==> Lower(Candidate(base, j)) in names && !accept(names[Lower(Candidate(base, j))])
  }

  /** Finds the first candidate that is free or whose holder may be reused. */
  method FreeName<T(!new)>(base: string, names: map<string, T>, accept: T -> bool)
    returns (candidate: string, holder: Option<T>, ghost k: nat)
    ensures candidate == Candidate(base, k) && FirstUsable(base, names, accept, k) && k <= |names|
    ensures var first := base[..Smaller(|base|, NAME_MAX_LENGTH)];
            && (k == 0 ==> candidate == first)
            && (k > 0 && Number(first) + k < Pow10(19) ==> IsSuffixed(Stem(first), Number(first) + k, candidate))
    ensures holder == if Lower(candidate) in names then Some(names[Lower(candidate)]) else None
  {
    hide IncrementSuffix, Number, Stem, Lower, Slice, Ahead, IsSuffixed, Pow10;
    candidate := Slice(base, NAME_MAX_LENGTH);
    k := 0;
    FirstCandidate(base);
    AheadIsPart(names.Keys, Number(candidate));
    while true
      invariant candidate == Candidate(base, k) && k + |Ahead(names.Keys, Number(candidate))| <= |names.Keys|
      invariant forall j: nat :: j < k ==> Lower(Candidate(base, j)) in names && !accept(names[Lower(Candidate(base, j))])
      decreases |Ahead(names.Keys, Number(candidate))|
    {
      var l := Lower(candidate);
      if l !in names || accept(names[l]) {
        if k > 0 && Number(Candidate(base, 0)) + k < Pow10(19) {
          CandidateIs(base, k);
        }
        return candidate, if l in names then Some(names[l]) else None, k;
      }
      NextNumber(candidate);
      NumberOfLower(candidate);
      AheadShrinks(names.Keys, l, Number(candidate));
      candidate := IncrementSuffix(candidate);
      k := k + 1;
    }
  }

  // ---------------------------------------------------------------- names of copies

  /** What str.strip removes, among the ASCII characters. */
  predicate IsSpace(c: char) {
    c == ' ' || 9 <= c as int <= 13 || 28 <= c as int <= 31
  }

  lemma SpacesAre(c: char)
    ensures IsSpace(c) <==> c in " \t\n\r" || c as int in {11, 12, 28, 29, 30, 31}
  {
  }

  function RStrip(s: string): (r: string)
    ensures r <= s && (r != [] ==> !IsSpace(r[|r| - 1])) && forall i :: |r| <= i < |s| ==> IsSpace(s[i])
  {
    if s == [] || !IsSpace(s[|s| - 1]) then s else RStrip(s[..|s| - 1])
  }

  function LStrip(s: string): (r: string)
    ensures |r| <= |s| && r == s[|s| - |r|..] && (r != [] ==> !IsSpace(r[0]))
    ensures forall i :: 0 <= i < |s| - |r| ==> IsSpace(s[i])
  {
    if s == [] || !IsSpace(s[0]) then s else LStrip(s[1..])
  }

  function NormalizeName(s: string): string { LStrip(RStrip(s)) }

  /** The name without the spaces around it: what is left begins and ends with something else. */
  predicate IsStripped(s: string, r: string, left: nat) {
    && left + |r| <= |s| && r == s[left..left + |r|]
    && (forall i :: 0 <= i < |s| && !(left <= i < left + |r|) ==> IsSpace(s[i]))
    && (r != [] ==> !IsSpace(r[0]) && !IsSpace(r[|r| - 1]))
  }

  lemma NormalizedIs(s: string)
    ensures exists left: nat :: IsStripped(s, NormalizeName(s), left)
  {
    hide RStrip, LStrip, IsSpace;
    var r := RStrip(s);
    var n := LStrip(r);
    var left := |r| - |n|;
    assert n == s[left..left + |n|] && n == NormalizeName(s);
    assert n != [] ==> n[|n| - 1] == r[|r| - 1];
    forall i | 0 <= i < |s| && !(left <= i < left + |n|) ensures IsSpace(s[i]) {
      assert i < left ==> s[i] == r[i];
    }
    assert IsStripped(s, n, left);
  }

  /** The n-th suffixed name of a copy: the base is shortened, and stripped again, so that the suffix fits. */
  function Numbered(base: string, n: nat): string {
    var room := NAME_MAX_LENGTH - |Suffix(n)|;
    RStrip(Slice(base, if room >= 0 then room else 0)) + Suffix(n)
  }

  lemma NumberedNumber(base: string, n: nat)
    ensures Number(Lower(Numbered(base, n))) == n
  {
    hide Number, Lower, Suffix;
    var room := NAME_MAX_LENGTH - |Suffix(n)|;
    SuffixIsFound(RStrip(Slice(base, if room >= 0 then room else 0)), n);
    NumberOfLower(Numbered(base, n));
  }

  /** The name is the base, cut so that the suffix fits and without spaces before it, then the suffix. */
  predicate IsNumbered(base: string, n: nat, name: string) {
    var suffix := "_" + Digits(n);
    && |suffix| <= |name| && name[|name| - |suffix|..] == suffix
    && var stem, room := name[..|name| - |suffix|], Smaller(|base|, if NAME_MAX_LENGTH < |suffix| then 0
                                                                   else NAME_MAX_LENGTH - |suffix|);
       && |stem| <= room && stem == base[..|stem|] && (stem != [] ==> !IsSpace(stem[|stem| - 1]))
       && forall i :: |stem| <= i < room ==> IsSpace(base[i])
  }

  lemma NumberedIs(base: string, n: nat)
    ensures IsNumbered(base, n, Numbered(base, n))
  {
    hide Digits, RStrip, IsSpace;
    var suffix := "_" + Digits(n);
    var room := if NAME_MAX_LENGTH < |suffix| then 0 else NAME_MAX_LENGTH - |suffix|;
    var cut := Slice(base, room);
    assert cut == base[..Smaller(|base|, room)];
    var stem := RStrip(cut);
    var name := stem + suffix;
    assert name[|name| - |suffix|..] == suffix && name[..|name| - |suffix|] == stem;
    assert stem == base[..|stem|];
  }

  /** With room for the suffix, X becomes X_n. */
  lemma NumberedWithRoom(base: string, n: nat)
    requires |base| + 1 + |Digits(n)| <= NAME_MAX_LENGTH && (base != [] ==> !IsSpace(base[|base| - 1]))
    ensures Numbered(base, n) == base + "_" + Digits(n)
  {
  }

  lemma NumberedFits(base: string, n: nat)
    ensures |Numbered(base, n)| <= NAME_MAX_LENGTH <==> n < Pow10(19)
  {
    hide Pow10;
    DigitsAtMost(n, 19);
  }

  /** The names in use, as the search compares them: stripped and lower-cased. */
  function Used(taken: seq<string>): set<string> {
    set i | 0 <= i < |taken| :: Lower(NormalizeName(taken[i]))
  }

  /**
   The first of base, base_2, base_3, ... that is not taken; it is found within one more number than there are names.
   A suffixed name fits the column exactly when a number of at most nineteen digits is free.
   */
  method FreeAgentName(base: string, taken: seq<string>) returns (name: string, ghost n: nat)
    ensures Lower(name) !in Used(taken)
    ensures forall i :: 0 <= i < |taken| ==> Lower(NormalizeName(taken[i])) != Lower(name)
    ensures Lower(NormalizeName(base)) !in Used(taken) ==> name == NormalizeName(base)
    ensures Lower(NormalizeName(base)) in Used(taken) ==>
              exists i :: 0 <= i < |taken| && Lower(NormalizeName(taken[i])) == Lower(NormalizeName(base))
    ensures Lower(NormalizeName(base)) in Used(taken) ==>
              && 2 <= n <= |Used(taken)| + 2 && name == Numbered(NormalizeName(base), n)
              && IsNumbered(NormalizeName(base), n, name)
              && forall m: nat :: 2 <= m < n ==> Lower(Numbered(NormalizeName(base), m)) in Used(taken)
    ensures Lower(NormalizeName(base)) in Used(taken) ==>
              (|name| <= NAME_MAX_LENGTH <==>
               exists m: nat :: 2 <= m < Pow10(19) && Lower(Numbered(NormalizeName(base), m)) !in Used(taken))
    ensures Lower(NormalizeName(base)) in Used(taken) && |Used(taken)| + 2 < Pow10(19) ==> |name| <= NAME_MAX_LENGTH
  {
    hide Lower, Number, Numbered, IsNumbered, NormalizeName, Ahead, Pow10;
    var used, normalized := Used(taken), NormalizeName(base);
    n := 0;
    if Lower(normalized) !in used {
      return normalized, n;
    }
    var number := 2;
    AheadIsPart(used, 2);
    while true
      invariant 2 <= number && number - 2 + |Ahead(used, number)| <= |used|
      invariant forall m: nat :: 2 <= m < number ==> Lower(Numbered(normalized, m)) in used
      decreases |Ahead(used, number)|
    {
      var candidate := Numbered(normalized, number);
      if Lower(candidate) !in used {
        NumberedFits(normalized, number);
        NumberedIs(normalized, number);
        return candidate, number;
      }
      NumberedNumber(normalized, number);
      AheadShrinks(used, Lower(candidate), number);
      number := number + 1;
    }
  }

  lemma AheadIsPart(taken: set<string>, n: nat)
    ensures |Ahead(taken, n)| <= |taken|
  {
    SubsetSize(Ahead(taken, n), taken);
  }
}
