/**
 * The text of a minutiae field in the ledger. add_minutiae stores the list of
 * (x, y) pairs as Python prints it, "[(12, 34), (56, 78)]", and the gallery
 * scan reads it back with ast.literal_eval. Show is the printer, Parse the reader
 * of that form, and the two make a round trip.
 */
module Coordinates {
  import opened Wrappers
  import opened Images

  predicate IsDigit(c: char) {
    '0' <= c <= '9'
  }

  predicate AllDigits(s: string) {
    forall k :: 0 <= k < |s| ==> IsDigit(s[k])
  }

  /** The text does not go on with a digit, so a number printed before it ends where it should. */
  predicate StopsNumber(s: string) {
    |s| == 0 || !IsDigit(s[0])
  }

  function DigitChar(d: int): (c: char)
    requires 0 <= d < 10
    ensures IsDigit(c)
  {
    (d + '0' as int) as char
  }

  function DigitValue(c: char): (d: int)
    requires IsDigit(c)
    ensures 0 <= d < 10
  {
    c as int - '0' as int
  }

  /** str(n) for a natural number: decimal digits without leading zeros. */
  function ShowNat(n: nat): (s: string)
    ensures |s| > 0 && AllDigits(s)
    ensures s[0] == '0' ==> s == "0"
  {
    if n < 10 then [DigitChar(n)] else ShowNat(n / 10) + [DigitChar(n % 10)]
  }

  /** str(i) for an integer. */
  function ShowInt(i: int): string {
    if i < 0 then "-" + ShowNat(-i) else ShowNat(i)
  }

  /** str((x, y)) for a pair of integers. */
  function ShowPoint(p: Point): string {
    "(" + ShowInt(p.x) + ", " + ShowInt(p.y) + ")"
  }

  /** str(p) for a pair: it opens with a parenthesis. */
  lemma ShowPointOpens(p: Point)
    ensures |ShowPoint(p)| > 0 && ShowPoint(p)[0] == '('
  {
  }

  /** What str writes after the opening bracket of a list of pairs: the pairs, separated by ", ", then "]". */
  function ShowItems(ps: seq<Point>): string {
    if |ps| == 0 then "]"
    else if |ps| == 1 then ShowPoint(ps[0]) + "]"
    else ShowPoint(ps[0]) + (", " + ShowItems(ps[1..]))
  }

  /** str(ps) for a list of (x, y) tuples, the text add_minutiae writes into the ledger. */
  function ShowPoints(ps: seq<Point>): string {
    "[" + ShowItems(ps)
  }

  /** The longest run of digits at the start of s. */
  function DigitRun(s: string): (r: string)
    ensures |r| <= |s| && r == s[..|r|] && AllDigits(r)
    ensures StopsNumber(s[|r|..])
  {
    if |s| > 0 && IsDigit(s[0]) then [s[0]] + DigitRun(s[1..]) else ""
  }

  /** The number that a string of decimal digits denotes. */
  function Value(ds: string): nat
    requires AllDigits(ds)
  {
    if |ds| == 0 then 0 else Value(ds[..|ds| - 1]) * 10 + DigitValue(ds[|ds| - 1])
  }

  /**
   * A natural number at the start of s and the text after it. A run of digits
   * that starts with 0 and goes on is refused, as Python refuses leading zeros.
   */
  function ParseNat(s: string): (r: Option<(nat, string)>)
    ensures r.Some? ==> |r.value.1| < |s| && r.value.1 == s[|s| - |r.value.1|..]
  {
    var ds := DigitRun(s);
    if |ds| == 0 || (ds[0] == '0' && |ds| > 1) then None
    else Some((Value(ds), s[|ds|..]))
  }

  /** An integer, with an optional minus sign, at the start of s. */
  function ParseInt(s: string): (r: Option<(int, string)>)
    ensures r.Some? ==> |r.value.1| < |s| && r.value.1 == s[|s| - |r.value.1|..]
  {
    if |s| > 0 && s[0] == '-' then
      match ParseNat(s[1..])
      case None => None
      case Some((n, rest)) => Some((-(n as int), rest))
    else
      match ParseNat(s)
      case None => None
      case Some((n, rest)) => Some((n as int, rest))
  }

  /** A pair "(x, y)" at the start of s. */
  function ParsePoint(s: string): (r: Option<(Point, string)>)
    ensures r.Some? ==> |r.value.1| < |s|
  {
    if |s| == 0 || s[0] != '(' then None
    else
      match ParseInt(s[1..])
      case None => None
      case Some((x, r1)) =>
        if |r1| < 2 || r1[..2] != ", " then None
        else
          match ParseInt(r1[2..])
          case None => None
          case Some((y, r2)) =>
            if |r2| == 0 || r2[0] != ')' then None
            else Some((Point(x, y), r2[1..]))
  }

  /** One or more pairs separated by ", " and closed by "]", which must end s. */
  function ParseItems(s: string): Option<seq<Point>>
    decreases |s|
  {
    match ParsePoint(s)
    case None => None
    case Some((p, rest)) =>
      if rest == "]" then Some([p])
      else if |rest| < 2 || rest[..2] != ", " then None
      else
        match ParseItems(rest[2..])
        case None => None
        case Some(ps) => Some([p] + ps)
  }

  /** The reading of a ledger field as a list of (x, y) pairs; None where ast.literal_eval would not give one. */
  function ParsePoints(s: string): Option<seq<Point>> {
    if s == "[]" then Some([])
    else if |s| == 0 || s[0] != '[' then None
    else ParseItems(s[1..])
  }

  lemma {:induction false} ValueOfShowNat(n: nat)
    ensures Value(ShowNat(n)) == n
    decreases n
  {
    if n >= 10 {
      ValueOfShowNat(n / 10);
      var s := ShowNat(n);
      assert s[..|s| - 1] == ShowNat(n / 10);
    }
  }

  lemma {:induction false} DigitRunOfDigits(ds: string, rest: string)
    requires AllDigits(ds) && StopsNumber(rest)
    ensures DigitRun(ds + rest) == ds
    decreases |ds|
  {
    if |ds| > 0 {
      assert (ds + rest)[1..] == ds[1..] + rest;
      DigitRunOfDigits(ds[1..], rest);
    }
  }

  lemma ParseShowNat(n: nat, rest: string)
    requires StopsNumber(rest)
    ensures ParseNat(ShowNat(n) + rest) == Some((n, rest))
  {
    var s := ShowNat(n);
    DigitRunOfDigits(s, rest);
    ValueOfShowNat(n);
    assert (s + rest)[|s|..] == rest;
  }

  lemma ParseNegative(digits: string, n: nat, rest: string)
    requires ParseNat(digits + rest) == Some((n, rest))
    ensures ParseInt("-" + digits + rest) == Some((-(n as int), rest))
  {
    assert ("-" + digits + rest)[1..] == digits + rest;
  }

  lemma ParseNonNegative(n: nat, rest: string)
    requires StopsNumber(rest)
    ensures ParseInt(ShowNat(n) + rest) == Some((n, rest))
  {
    var s := ShowNat(n) + rest;
    assert s[0] == ShowNat(n)[0];
    ParseShowNat(n, rest);
  }

  lemma ParseShowInt(i: int, rest: string)
    requires StopsNumber(rest)
    ensures ParseInt(ShowInt(i) + rest) == Some((i, rest))
  {
    if i < 0 {
      ParseShowNat(-i, rest);
      ParseNegative(ShowNat(-i), -i, rest);
      assert ShowInt(i) == "-" + ShowNat(-i);
    } else {
      ParseNonNegative(i, rest);
      assert ShowInt(i) == ShowNat(i);
    }
  }

  lemma ParsePointOf(s: string, x: int, r1: string, y: int, r2: string)
    requires |s| > 0 && s[0] == '(' && ParseInt(s[1..]) == Some((x, r1))
    requires |r1| >= 2 && r1[..2] == ", " && ParseInt(r1[2..]) == Some((y, r2))
    requires |r2| > 0 && r2[0] == ')'
    ensures ParsePoint(s) == Some((Point(x, y), r2[1..]))
  {
  }

  lemma ParseShowPoint(p: Point, rest: string)
    ensures ParsePoint(ShowPoint(p) + rest) == Some((p, rest))
  {
    var sx, sy := ShowInt(p.x), ShowInt(p.y);
    var r2 := ")" + rest;
    var r1 := ", " + (sy + r2);
    var s := "(" + (sx + r1);
    assert ShowPoint(p) + rest == s;
    assert s[1..] == sx + r1;
    ParseShowInt(p.x, r1);
    assert r1[2..] == sy + r2;
    ParseShowInt(p.y, r2);
    assert r2[1..] == rest;
    ParsePointOf(s, p.x, r1, p.y, r2);
  }

  lemma ParseItemsOf(s: string, p: Point, rest: string, ps: seq<Point>)
    requires ParsePoint(s) == Some((p, rest))
    requires |rest| >= 2 && rest[..2] == ", " && ParseItems(rest[2..]) == Some(ps)
    ensures ParseItems(s) == Some([p] + ps)
  {
    assert rest != "]";
  }

  lemma ParseLastItem(ps: seq<Point>)
    requires |ps| == 1
    ensures ParseItems(ShowItems(ps)) == Some(ps)
  {
    ParseShowPoint(ps[0], "]");
    assert ps == [ps[0]];
  }

  lemma ParseItemBefore(p: Point, tail: string, ps: seq<Point>)
    requires ParseItems(tail) == Some(ps)
    ensures ParseItems(ShowPoint(p) + (", " + tail)) == Some([p] + ps)
  {
    var rest := ", " + tail;
    ParseShowPoint(p, rest);
    assert rest[2..] == tail;
    ParseItemsOf(ShowPoint(p) + rest, p, rest, ps);
  }

  lemma HeadThenTail<T>(s: seq<T>)
    requires |s| > 0
    ensures [s[0]] + s[1..] == s
  {
  }

  lemma ParseItemThenMore(ps: seq<Point>)
    requires |ps| > 1 && ParseItems(ShowItems(ps[1..])) == Some(ps[1..])
    ensures ParseItems(ShowItems(ps)) == Some(ps)
  {
    ParseItemBefore(ps[0], ShowItems(ps[1..]), ps[1..]);
    HeadThenTail(ps);
  }

  lemma {:induction false} ParseShowItems(ps: seq<Point>)
    requires |ps| > 0
    ensures ParseItems(ShowItems(ps)) == Some(ps)
    decreases |ps|
  {
    if |ps| == 1 {
      ParseLastItem(ps);
    } else {
      ParseShowItems(ps[1..]);
      ParseItemThenMore(ps);
    }
  }

  /** Reading back what add_minutiae wrote gives the same pairs in the same order. */
  lemma ParseShowPoints(ps: seq<Point>)
    ensures ParsePoints(ShowPoints(ps)) == Some(ps)
  {
    var s := ShowPoints(ps);
    assert s[1..] == ShowItems(ps);
    if |ps| > 0 {
      ShowPointOpens(ps[0]);
      assert s[1] == '(';
      ParseShowItems(ps);
    }
  }
}
