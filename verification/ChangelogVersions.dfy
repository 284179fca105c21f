/** Version numbers are read from their digits, and releases compare as the numbers in their titles do. */
module ChangelogVersions {
  import opened Wrappers
  import opened ChangelogText
  import opened ChangelogFix

  predicate AllDigits(s: string) {
    forall i :: 0 <= i < |s| ==> IsDigit(s[i])
  }

  predicate StartsWithDigit(s: string) {
    s != "" && IsDigit(s[0])
  }

  lemma {:induction false} DigitsConcat(a: string, b: string, value: nat)
    requires AllDigits(a)
    ensures DigitsValue(a + b, value) == DigitsValue(b, DigitsValue(a, value))
    decreases |a|
  {
    if a == "" {
      assert a + b == b;
    } else {
      assert (a + b)[1..] == a[1..] + b;
      DigitsConcat(a[1..], b, 10 * value + (a[0] as int - '0' as int));
    }
  }

  lemma {:induction false} DecimalIsDigits(n: nat)
    ensures AllDigits(Decimal(n))
  {
    if n >= 10 {
      DecimalIsDigits(n / 10);
    }
  }

  lemma {:induction false} DecimalValue(n: nat, rest: string)
    requires !StartsWithDigit(rest)
    ensures DigitsValue(Decimal(n) + rest, 0) == n
  {
    DecimalIsDigits(n);
    DigitsConcat(Decimal(n), rest, 0);
    DigitsEnd(rest, DigitsValue(Decimal(n), 0));
    var digit := ['0' + (n % 10) as char];
    OneDigit(digit, if n < 10 then 0 else n / 10);
    if n >= 10 {
      DecimalValue(n / 10, "");
      assert Decimal(n / 10) + "" == Decimal(n / 10);
      DecimalIsDigits(n / 10);
      DigitsConcat(Decimal(n / 10), digit, 0);
    }
  }

  lemma DigitsEnd(rest: string, value: nat)
    requires !StartsWithDigit(rest)
    ensures DigitsValue(rest, value) == value
  {
  }

  lemma OneDigit(digit: string, value: nat)
    requires |digit| == 1 && IsDigit(digit[0])
    ensures DigitsValue(digit, value) == 10 * value + (digit[0] as int - '0' as int)
  {
    assert digit[1..] == "";
  }

  lemma PlainNumber(n: nat, rest: string)
    requires !StartsWithDigit(rest)
    ensures var plain := Decimal(n) + rest; IsDigit(plain[0]) && !IsSpace(plain[0]) && DigitsValue(plain, 0) == n
  {
    hide DigitsValue;
    DecimalIsDigits(n);
    DecimalValue(n, rest);
    assert (Decimal(n) + rest)[0] == Decimal(n)[0];
  }

  /** The number a text begins with is read whatever follows it, after white space, with its sign. */
  lemma NumberReadsBack(space: string, n: nat, rest: string)
    requires Blank(space) && !StartsWithDigit(rest)
    ensures ParseInt(space + (Decimal(n) + rest)) == Some(n as int)
    ensures ParseInt(space + ("-" + (Decimal(n) + rest))) == Some(-(n as int))
    ensures ParseInt(space + ("+" + (Decimal(n) + rest))) == Some(n as int)
  {
    hide DigitsValue, Decimal, IsSpace, TrimStart, Blank;
    PlainNumber(n, rest);
    var plain := Decimal(n) + rest;
    SignsAreNoSpace();
    AfterSpace(space, plain);
    AfterSpace(space, "-" + plain);
    AfterSpace(space, "+" + plain);
    assert ("-" + plain)[1..] == plain && ("+" + plain)[1..] == plain;
  }

  lemma SignsAreNoSpace()
    ensures !IsSpace('-') && !IsSpace('+')
  {
  }

  lemma {:induction false} AfterSpace(space: string, text: string)
    requires Blank(space) && text != "" && !IsSpace(text[0])
    ensures TrimStart(space + text) == text
  {
    if space == "" {
      assert space + text == text;
    } else {
      assert (space + text)[1..] == space[1..] + text;
      AfterSpace(space[1..], text);
    }
  }

  // ---- whole versions ----

  /** The numbers of a version, with dots between them. */
  function Dotted(numbers: seq<nat>): string
    requires numbers != []
  {
    if |numbers| == 1 then Decimal(numbers[0]) else Decimal(numbers[0]) + "." + Dotted(numbers[1..])
  }

  function Known(numbers: seq<nat>): (r: seq<Option<int>>)
    ensures |r| == |numbers|
    ensures forall i :: 0 <= i < |r| ==> r[i] == Some(numbers[i])
  {
    seq(|numbers|, i requires 0 <= i < |numbers| => Some(numbers[i]))
  }

  lemma {:induction false} SplitAtDot(part: string, rest: string)
    requires '.' !in part
    ensures SplitDots(part) == [part] && SplitDots(part + "." + rest) == [part] + SplitDots(rest)
  {
    var s := part + "." + rest;
    if part == "" {
      assert s[1..] == rest;
    } else {
      assert s[1..] == part[1..] + "." + rest && part == [part[0]] + part[1..];
      SplitAtDot(part[1..], rest);
    }
  }

  lemma {:induction false} VersionReadsBack(numbers: seq<nat>)
    requires numbers != []
    ensures Version(Dotted(numbers)) == Known(numbers)
  {
    hide ParseInt, Decimal, SplitDots;
    DecimalIsDigits(numbers[0]);
    NumberReadsBack("", numbers[0], "");
    assert "" + (Decimal(numbers[0]) + "") == Decimal(numbers[0]);
    if |numbers| == 1 {
      SplitAtDot(Decimal(numbers[0]), "");
      assert Version(Dotted(numbers)) == [Some(numbers[0])];
    } else {
      var rest := Dotted(numbers[1..]);
      VersionReadsBack(numbers[1..]);
      SplitAtDot(Decimal(numbers[0]), rest);
      assert Version(Dotted(numbers)) == [Some(numbers[0])] + Version(rest);
    }
  }

  /** The first difference is a larger number on the left. */
  ghost predicate Newer(left: seq<nat>, right: seq<nat>) {
    exists k :: 0 <= k < |left| && k < |right| && left[..k] == right[..k] && left[k] > right[k]
  }

  lemma NewerTail(left: seq<nat>, right: seq<nat>)
    requires |left| == |right| > 0
    ensures Newer(left, right) <==> left[0] > right[0] || (left[0] == right[0] && Newer(left[1..], right[1..]))
  {
    var l, r := left[1..], right[1..];
    assert left == [left[0]] + l && right == [right[0]] + r && left[..0] == right[..0];
    if left[0] == right[0] && Newer(l, r) {
      var k :| 0 <= k < |l| && k < |r| && l[..k] == r[..k] && l[k] > r[k];
      assert left[..k + 1] == [left[0]] + l[..k] && right[..k + 1] == [right[0]] + r[..k];
      assert left[k + 1] > right[k + 1];
    }
    if Newer(left, right) {
      var k :| 0 <= k < |left| && k < |right| && left[..k] == right[..k] && left[k] > right[k];
      if k > 0 {
        assert left[..k][0] == left[0] && right[..k][0] == right[0];
        assert l[..k - 1] == left[..k][1..] && r[..k - 1] == right[..k][1..] && l[k - 1] > r[k - 1];
      }
    }
  }

  lemma CompareTail(left: seq<nat>, right: seq<nat>)
    requires |left| == |right| > 0
    ensures Compare(Known(left), Known(right))
         == if left[0] != right[0] then right[0] - left[0] else Compare(Known(left[1..]), Known(right[1..]))
  {
    assert Known(left)[1..] == Known(left[1..]);
    assert Known(right)[1..] == Known(right[1..]);
  }

  lemma {:induction false} CompareKnown(left: seq<nat>, right: seq<nat>)
    requires |left| == |right|
    ensures Compare(Known(left), Known(right)) < 0 <==> Newer(left, right)
    ensures Compare(Known(left), Known(right)) == 0 <==> left == right
  {
    hide Known, Newer;
    if left == [] {
      NothingIsNewer();
    } else {
      NewerTail(left, right);
      CompareTail(left, right);
      CompareKnown(left[1..], right[1..]);
      assert left == [left[0]] + left[1..] && right == [right[0]] + right[1..];
    }
  }

  lemma NothingIsNewer()
    ensures !Newer([], []) && Compare(Known([]), Known([])) == 0
  {
    assert Known([]) == [];
  }

  /** Releases with as many numbers in their titles: the newer one is the one whose first different number is larger. */
  lemma NewerTitleIsFirst(left: seq<nat>, right: seq<nat>)
    requires left != [] && |left| == |right|
    ensures CompareTitles(Dotted(left), Dotted(right)) < 0 <==> Newer(left, right)
    ensures CompareTitles(Dotted(left), Dotted(right)) == 0 <==> left == right
  {
    hide Version, Compare, Dotted;
    VersionReadsBack(left);
    VersionReadsBack(right);
    CompareKnown(left, right);
  }
}
