/**
 * `extract_number` of src/subgraph_accuracy_check.py: the sort key of a
 * subgraph file name, the number in a trailing `_<digits>.xml`, or +infinity.
 */
module SortKey {
  import opened Wrappers

  /** An int, or the float +infinity; they compare as Python compares them. */
  datatype Key = Num(n: nat) | Infinity

  /** Python's `<` between two keys. */
  predicate KeyLess(a: Key, b: Key) {
    match (a, b)
    case (Num(x), Num(y)) => x < y
    case (Num(_), Infinity) => true
    case (Infinity, _) => false
  }

  /** An ASCII decimal digit (`\d` restricted to ASCII). */
  predicate IsDigit(c: char) { '0' <= c <= '9' }

  predicate AllDigits(s: string) { forall i :: 0 <= i < |s| ==> IsDigit(s[i]) }

  /** `int(s)` for a string of decimal digits. */
  function DecimalValue(s: string): nat
    requires AllDigits(s)
  {
    if |s| == 0 then 0
    else DecimalValue(s[..|s| - 1]) * 10 + (s[|s| - 1] as int - '0' as int)
  }

  /** The start of the ".xml" that `\.xml$` matches: at the very end, or before a final newline. */
  function XmlTailStart(s: string): Option<nat>
  {
    if |s| >= 4 && s[|s| - 4..] == ".xml" then Some(|s| - 4)
    else if |s| >= 5 && s[|s| - 5..] == ".xml\n" then Some(|s| - 5)
    else None
  }

  /** The length of the longest run of digits at the end of `s`. */
  function TrailingDigits(s: string): (k: nat)
    ensures k <= |s|
    ensures forall i :: |s| - k <= i < |s| ==> IsDigit(s[i])
    ensures k < |s| ==> !IsDigit(s[|s| - k - 1])
    decreases |s|
  {
    if |s| == 0 || !IsDigit(s[|s| - 1]) then 0
    else
      var t := s[..|s| - 1];
      var k := TrailingDigits(t);
      assert forall i :: |t| - k <= i < |t| ==> s[i] == t[i];
      k + 1
  }

  /** The trailing run of digits, as a string of digits. */
  lemma TrailingRun(s: string)
    ensures AllDigits(s[|s| - TrailingDigits(s)..])
  {
    var k := TrailingDigits(s);
    var run := s[|s| - k..];
    assert forall j :: 0 <= j < |run| ==> run[j] == s[|s| - k + j];
  }

  /** `re.search(r'_(\d+)\.xml$', s)` matches with `_` at `p` and the group ending at `q`. */
  predicate MatchAt(s: string, p: nat, q: nat) {
    p + 1 < q <= |s| && s[p] == '_' && AllDigits(s[p + 1..q])
    && (s[q..] == ".xml" || s[q..] == ".xml\n")
  }

  /** `extract_number(filename)`. */
  function ExtractNumber(filename: string): Key
  {
    match XmlTailStart(filename)
    case None => Infinity
    case Some(q) =>
      var k := TrailingDigits(filename[..q]);
      if k > 0 && q - k - 1 >= 0 && filename[q - k - 1] == '_'
      then
        TrailingRun(filename[..q]);
        assert filename[..q][q - k..] == filename[q - k..q];
        Num(DecimalValue(filename[q - k..q]))
      else Infinity
  }

  /** Where a match can end: the ".xml" tail is unique. */
  lemma MatchEnd(s: string, p: nat, q: nat)
    requires MatchAt(s, p, q)
    ensures XmlTailStart(s) == Some(q)
  {
    if s[q..] == ".xml\n" {
      assert s[|s| - 4..] == s[q..][1..];
    }
  }

  /**
   * A match fixes its `_` and its digits: the digits are the whole run of
   * digits before ".xml", so only the last `_<digits>.xml` counts.
   */
  lemma MatchIsMaximalRun(s: string, p: nat, q: nat)
    requires MatchAt(s, p, q)
    ensures TrailingDigits(s[..q]) == q - p - 1
  {
    var t := s[..q];
    var k := TrailingDigits(t);
    assert forall i :: p + 1 <= i < q ==> IsDigit(t[i]) by {
      forall i | p + 1 <= i < q ensures IsDigit(t[i]) {
        assert t[i] == s[p + 1..q][i - p - 1];
      }
    }
  }

  /** A match determines the result: the value of the matched digits. */
  lemma ExtractNumberOfMatch(s: string, p: nat, q: nat)
    requires MatchAt(s, p, q)
    ensures ExtractNumber(s) == Num(DecimalValue(s[p + 1..q]))
  {
    MatchEnd(s, p, q);
    MatchIsMaximalRun(s, p, q);
    assert s[..q][q - (q - p - 1)..] == s[p + 1..q];
  }

  /** A number is returned only when the regular expression matches. */
  lemma NumberHasMatch(s: string) returns (p: nat, q: nat)
    requires ExtractNumber(s).Num?
    ensures MatchAt(s, p, q)
  {
    q := XmlTailStart(s).value;
    var k := TrailingDigits(s[..q]);
    p := q - k - 1;
    assert s[..q][q - k..] == s[q - k..q];
  }

  /**
   * `extract_number` returns a number exactly when the regular expression
   * matches, and then the value of the matched digits.
   */
  lemma ExtractNumberSpec(s: string)
    ensures ExtractNumber(s).Num? <==> exists p: nat, q: nat :: MatchAt(s, p, q)
    ensures forall p: nat, q: nat :: MatchAt(s, p, q) ==> ExtractNumber(s) == Num(DecimalValue(s[p + 1..q]))
  {
    forall p: nat, q: nat | MatchAt(s, p, q) ensures ExtractNumber(s) == Num(DecimalValue(s[p + 1..q])) {
      ExtractNumberOfMatch(s, p, q);
    }
    if ExtractNumber(s).Num? {
      var p, q := NumberHasMatch(s);
    }
  }

  /** Leading zeros do not change the value, as with `int("007")`. */
  lemma {:induction false} LeadingZero(s: string)
    requires AllDigits(s)
    ensures AllDigits("0" + s) && DecimalValue("0" + s) == DecimalValue(s)
    decreases |s|
  {
    var t := "0" + s;
    if |s| > 0 {
      assert t[..|t| - 1] == "0" + s[..|s| - 1];
      LeadingZero(s[..|s| - 1]);
    }
  }

  /** A name without a match sorts after every numbered name, and never before any name. */
  lemma UnnumberedSortsLast(a: string, b: string)
    requires forall p: nat, q: nat :: !MatchAt(b, p, q)
    ensures ExtractNumber(b) == Infinity
    ensures !KeyLess(ExtractNumber(b), ExtractNumber(a))
    ensures ExtractNumber(a).Num? ==> KeyLess(ExtractNumber(a), ExtractNumber(b))
  {
    ExtractNumberSpec(b);
  }

  /** The last run of digits counts. */
  lemma ExampleLastRun()
    ensures ExtractNumber("a_1_23.xml") == Num(23)
  {
    var s := "a_1_23.xml";
    assert s[4..6] == "23" && s[6..] == ".xml";
    assert MatchAt(s, 3, 6);
    ExtractNumberOfMatch(s, 3, 6);
    assert DecimalValue("2") == 2;
  }

  /** Leading zeros vanish. */
  lemma ExampleZeros()
    ensures ExtractNumber("_007.xml") == Num(7)
  {
    var s := "_007.xml";
    assert s[1..4] == "007" && s[4..] == ".xml";
    assert MatchAt(s, 0, 4);
    ExtractNumberOfMatch(s, 0, 4);
    assert DecimalValue("0") == 0;
    assert DecimalValue("00") == 0;
  }

  /** `$` also matches before a final newline. */
  lemma ExampleNewline()
    ensures ExtractNumber("a_5.xml\n") == Num(5)
  {
    var s := "a_5.xml\n";
    assert s[2..3] == "5" && s[3..] == ".xml\n";
    assert MatchAt(s, 1, 3);
    ExtractNumberOfMatch(s, 1, 3);
  }

  /** Digits not directly preceded by `_` do not match. */
  lemma ExampleNoUnderscore()
    ensures ExtractNumber("a_x12.xml") == Infinity
  {
    var s := "a_x12.xml";
    assert s[5..] == ".xml";
    assert XmlTailStart(s) == Some(5);
    assert s[..5] == "a_x12";
    assert "a_x12"[..4] == "a_x1";
    assert "a_x1"[..3] == "a_x";
    assert TrailingDigits("a_x") == 0;
    assert TrailingDigits("a_x12") == 2;
  }

  /** The suffix is matched case-sensitively. */
  lemma ExampleUpperCase()
    ensures ExtractNumber("a_12.XML") == Infinity
  {
    var s := "a_12.XML";
    assert s[4..] == ".XML";
    assert s[3..] != ".xml\n";
  }
}
