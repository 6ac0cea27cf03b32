/**
 * The part of Go's `fmt` the quest log uses: `%d` and `%3d` on integers,
 * and the movement message built from them. A parser for that message is
 * the partner of the formatter: it shows that the message carries all four
 * coordinates, recoverably.
 */
module Fmt {
  import opened Wrappers

  predicate IsDigit(c: char)
  {
    '0' <= c <= '9'
  }

  function DigitChar(d: int): (c: char)
    requires 0 <= d < 10
    ensures IsDigit(c) && DigitValue(c) == d
  {
    ('0' as int + d) as char
  }

  function DigitValue(c: char): (d: int)
  {
    c as int - '0' as int
  }

  /** `n` in decimal, most significant digit first, without leading zeros. */
  function Decimal(n: nat): (s: string)
    ensures |s| >= 1 && forall i :: 0 <= i < |s| ==> IsDigit(s[i])
    ensures |s| > 1 ==> s[0] != '0'
  {
    if n < 10 then [DigitChar(n)] else Decimal(n / 10) + [DigitChar(n % 10)]
  }

  /** Go's `%d`. */
  function FormatInt(n: int): (s: string)
    ensures |s| >= 1 && (s[0] == '-' || IsDigit(s[0]))
    ensures forall i :: 0 <= i < |s| ==> s[i] == '-' || IsDigit(s[i])
  {
    if n < 0 then "-" + Decimal(-n) else Decimal(n)
  }

  /** `s` padded on the left with spaces to at least `width` characters. */
  function PadLeft(s: string, width: nat): (r: string)
    ensures |r| == (if |s| >= width then |s| else width)
    ensures r[|r| - |s|..] == s
    ensures forall i :: 0 <= i < |r| - |s| ==> r[i] == ' '
  {
    if |s| >= width then s else seq(width - |s|, _ => ' ') + s
  }

  /** Go's `%3d`. */
  function FormatInt3(n: int): (s: string)
    ensures |s| == (if |FormatInt(n)| >= 3 then |FormatInt(n)| else 3)
    ensures s[|s| - |FormatInt(n)|..] == FormatInt(n)
    ensures forall i :: 0 <= i < |s| - |FormatInt(n)| ==> s[i] == ' '
  {
    PadLeft(FormatInt(n), 3)
  }

  /** The message of RecordPlayerMovement: `You move from (%3d,%3d) to (%3d,%3d)`. */
  function MovementMessage(oldX: int, oldY: int, x: int, y: int): (msg: string)
    ensures |msg| >= 36
    ensures msg[..15] == "You move from (" && msg[|msg| - 1] == ')'
  {
    var head := "You move from (" + FormatInt3(oldX);
    var m := head + "," + FormatInt3(oldY) + ") to (" + FormatInt3(x) + "," + FormatInt3(y) + ")";
    assert m[..15] == head[..15];
    m
  }

  // ---- Reading the message back ----

  predicate AllDigits(s: string)
  {
    forall i :: 0 <= i < |s| ==> IsDigit(s[i])
  }

  /** The value of a string of decimal digits. */
  function DigitsValue(s: string): (n: nat)
    requires AllDigits(s)
  {
    if |s| == 0 then 0 else DigitsValue(s[..|s| - 1]) * 10 + DigitValue(s[|s| - 1])
  }

  /** Reads back what `%d` writes. */
  function ParseInt(s: string): (r: Option<int>)
  {
    if |s| >= 2 && s[0] == '-' && AllDigits(s[1..]) then Some(-(DigitsValue(s[1..]) as int))
    else if |s| >= 1 && AllDigits(s) then Some(DigitsValue(s))
    else None
  }

  function TrimLeftSpaces(s: string): (r: string)
  {
    if |s| > 0 && s[0] == ' ' then TrimLeftSpaces(s[1..]) else s
  }

  /** Reads back what `%3d` writes. */
  function ParseInt3(s: string): (r: Option<int>)
  {
    ParseInt(TrimLeftSpaces(s))
  }

  /** The text before the first `c` and the text after it. */
  function SplitAt(s: string, c: char): (r: Option<(string, string)>)
  {
    if |s| == 0 then None
    else if s[0] == c then Some(([], s[1..]))
    else match SplitAt(s[1..], c)
      case None => None
      case Some((before, after)) => Some(([s[0]] + before, after))
  }

  /** The text after `prefix`, when `s` starts with it. */
  function After(s: string, prefix: string): (r: Option<string>)
  {
    if |s| >= |prefix| && s[..|prefix|] == prefix then Some(s[|prefix|..]) else None
  }

  /** The coordinates `(oldX, oldY, x, y)` a movement message reports. */
  function ParseMovement(msg: string): (r: Option<(int, int, int, int)>)
  {
    match After(msg, "You move from (")
    case None => None
    case Some(r0) =>
      match SplitAt(r0, ',')
      case None => None
      case Some((f0, r1)) =>
        match SplitAt(r1, ')')
        case None => None
        case Some((f1, r2)) =>
          match After(r2, " to (")
          case None => None
          case Some(r3) =>
            match SplitAt(r3, ',')
            case None => None
            case Some((f2, r4)) =>
              match SplitAt(r4, ')')
              case None => None
              case Some((f3, r5)) =>
                if r5 != [] then None
                else match (ParseInt3(f0), ParseInt3(f1), ParseInt3(f2), ParseInt3(f3))
                  case (Some(a), Some(b), Some(c), Some(d)) => Some((a, b, c, d))
                  case _ => None
  }

  // ---- The round trip ----

  lemma {:induction false} DecimalValue(n: nat)
    ensures DigitsValue(Decimal(n)) == n
  {
    if n >= 10 {
      var s := Decimal(n / 10) + [DigitChar(n % 10)];
      assert s[..|s| - 1] == Decimal(n / 10);
      DecimalValue(n / 10);
    }
  }

  lemma FormatIntParses(n: int)
    ensures ParseInt(FormatInt(n)) == Some(n)
  {
    if n < 0 {
      var s := "-" + Decimal(-n);
      assert s[1..] == Decimal(-n);
      DecimalValue(-n);
    } else {
      DecimalValue(n);
    }
  }

  lemma {:induction false} TrimPadding(k: nat, s: string)
    requires |s| == 0 || s[0] != ' '
    ensures TrimLeftSpaces(seq(k, _ => ' ') + s) == s
  {
    if k > 0 {
      var p := seq(k, _ => ' ') + s;
      assert p[1..] == seq(k - 1, _ => ' ') + s;
      TrimPadding(k - 1, s);
    } else {
      assert seq(k, _ => ' ') + s == s;
    }
  }

  lemma FormatInt3Parses(n: int)
    ensures ParseInt3(FormatInt3(n)) == Some(n)
    ensures NoDelimiter(FormatInt3(n))
  {
    var s := FormatInt(n);
    if |s| < 3 {
      TrimPadding(3 - |s|, s);
    }
    FormatIntParses(n);
  }

  lemma {:induction false} SplitAtFirst(a: string, c: char, b: string)
    requires forall i :: 0 <= i < |a| ==> a[i] != c
    ensures SplitAt(a + ([c] + b), c) == Some((a, b))
  {
    var s := a + ([c] + b);
    if |a| > 0 {
      assert s[1..] == a[1..] + ([c] + b);
      SplitAtFirst(a[1..], c, b);
      assert [a[0]] + a[1..] == a;
    } else {
      assert s == [c] + b;
    }
  }

  lemma Assoc(a: string, b: string, c: string)
    ensures a + b + c == a + (b + c)
  {
  }

  lemma AfterPrefix(p: string, s: string)
    ensures After(p + s, p) == Some(s)
  {
    assert (p + s)[..|p|] == p;
    assert (p + s)[|p|..] == s;
  }

  /** The text between the fields, with the fields put in as `f0 … f3`, nested to the right. */
  function Nested(f0: string, f1: string, f2: string, f3: string): (msg: string)
  {
    "You move from (" + (f0 + ("," + (f1 + (")" + (" to (" + (f2 + ("," + (f3 + ")"))))))))
  }

  lemma {:induction false} MessageIsNested(oldX: int, oldY: int, x: int, y: int)
    ensures MovementMessage(oldX, oldY, x, y) == Nested(FormatInt3(oldX), FormatInt3(oldY), FormatInt3(x), FormatInt3(y))
  {
    var f0, f1, f2, f3 := FormatInt3(oldX), FormatInt3(oldY), FormatInt3(x), FormatInt3(y);
    var p := "You move from (";
    var r4 := f3 + ")";
    var r3 := f2 + ("," + r4);
    var r2 := " to (" + r3;
    var r1 := f1 + (")" + r2);
    var r0 := f0 + ("," + r1);
    var e := p + f0 + ",";
    var c := e + f1 + ") to (";
    var b := c + f2;
    Assoc(b + ",", f3, ")");
    Assoc(b, ",", r4);
    Assoc(c, f2, "," + r4);
    assert ") to (" == ")" + " to (";
    Assoc(")", " to (", r3);
    Assoc(e + f1, ") to (", r3);
    Assoc(e, f1, ")" + r2);
    Assoc(p + f0, ",", r1);
    Assoc(p, f0, "," + r1);
  }

  predicate NoDelimiter(f: string)
  {
    forall i :: 0 <= i < |f| ==> f[i] != ',' && f[i] != ')'
  }

  /** The parser cuts the message exactly at its delimiters. */
  lemma ParseNested(f0: string, f1: string, f2: string, f3: string)
    requires NoDelimiter(f0) && NoDelimiter(f1) && NoDelimiter(f2) && NoDelimiter(f3)
    ensures ParseMovement(Nested(f0, f1, f2, f3)) ==
      match (ParseInt3(f0), ParseInt3(f1), ParseInt3(f2), ParseInt3(f3))
      case (Some(a), Some(b), Some(c), Some(d)) => Some((a, b, c, d))
      case _ => None
  {
    var r4 := f3 + ")";
    var r3 := f2 + ("," + r4);
    var r2 := " to (" + r3;
    var r1 := f1 + (")" + r2);
    var r0 := f0 + ("," + r1);
    AfterPrefix("You move from (", r0);
    SplitAtFirst(f0, ',', r1);
    SplitAtFirst(f1, ')', r2);
    AfterPrefix(" to (", r3);
    SplitAtFirst(f2, ',', r4);
    assert r4 == f3 + ([')'] + []);
    SplitAtFirst(f3, ')', []);
  }

  /** The movement message gives back exactly the four coordinates it was built from. */
  lemma MovementMessageRoundTrip(oldX: int, oldY: int, x: int, y: int)
    ensures ParseMovement(MovementMessage(oldX, oldY, x, y)) == Some((oldX, oldY, x, y))
  {
    FormatInt3Parses(oldX);
    FormatInt3Parses(oldY);
    FormatInt3Parses(x);
    FormatInt3Parses(y);
    MessageIsNested(oldX, oldY, x, y);
    ParseNested(FormatInt3(oldX), FormatInt3(oldY), FormatInt3(x), FormatInt3(y));
  }
}
