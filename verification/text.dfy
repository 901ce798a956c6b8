/** Colon-joined text and decimal numbers, as Go's strings and strconv packages treat them
    (storage/redis.go:285-315, 870-922). */
module Text {
  import opened Common

  const MIN_INT64: int := -0x8000_0000_0000_0000

  predicate ColonFree(s: string) {
    forall i | 0 <= i < |s| :: s[i] != ':'
  }

  /** strings.Join(parts, ":"). */
  function Join(parts: seq<string>): string {
    if parts == [] then ""
    else if |parts| == 1 then parts[0]
    else parts[0] + ":" + Join(parts[1..])
  }

  /** The length of the longest colon-free prefix. */
  function FirstColon(s: string): (i: nat)
    ensures i <= |s| && ColonFree(s[..i])
    ensures i < |s| ==> s[i] == ':'
  {
    if s == "" || s[0] == ':' then 0
    else
      var i := FirstColon(s[1..]) + 1;
      assert s[..i] == [s[0]] + s[1..][..i - 1];
      i
  }

  /** strings.Split(s, ":"). */
  function Split(s: string): (parts: seq<string>)
    ensures |parts| >= 1
    decreases |s|
  {
    var i := FirstColon(s);
    if i == |s| then [s] else [s[..i]] + Split(s[i + 1..])
  }

  lemma {:induction false} FirstColonAt(a: string, rest: string)
    requires ColonFree(a)
    ensures FirstColon(a + ":" + rest) == |a|
    ensures FirstColon(a) == |a|
  {
    if a != "" {
      FirstColonAt(a[1..], rest);
      assert (a + ":" + rest)[1..] == a[1..] + ":" + rest;
    }
  }

  /** Colon-free fields survive joining and splitting. */
  lemma {:induction false} SplitJoin(parts: seq<string>)
    requires parts != [] && forall i | 0 <= i < |parts| :: ColonFree(parts[i])
    ensures Split(Join(parts)) == parts
  {
    hide ColonFree;
    if |parts| == 1 {
      FirstColonAt(parts[0], "");
      assert parts == [parts[0]];
    } else {
      var rest := Join(parts[1..]);
      FirstColonAt(parts[0], rest);
      SplitJoin(parts[1..]);
      var s := parts[0] + ":" + rest;
      assert s[..|parts[0]|] == parts[0] && s[|parts[0]| + 1..] == rest;
      assert parts == [parts[0]] + parts[1..];
    }
  }

  lemma Regroup(a: string, b: string, c: string)
    ensures (a + ":" + b) + (":" + c) == a + ":" + (b + ":" + c)
    ensures (a + ":" + b) + ":" + c == a + ":" + (b + ":" + c)
  {
  }

  /** Joining a joined prefix with more fields is joining them all. */
  lemma {:induction false} JoinNested(first: seq<string>, rest: seq<string>)
    requires first != [] && rest != []
    ensures Join([Join(first)] + rest) == Join(first + rest)
  {
    if |first| == 1 {
      assert [Join(first)] + rest == first + rest;
    } else {
      JoinNested(first[1..], rest);
      var tail := Join(first[1..]);
      assert ([Join(first)] + rest)[1..] == rest;
      assert ([tail] + rest)[1..] == rest;
      assert (first + rest)[1..] == first[1..] + rest;
      Regroup(first[0], tail, Join(rest));
    }
  }

  // ------------------------------------------------------------------------------------------
  // Decimal numbers

  predicate IsDigit(c: char) {
    '0' <= c <= '9'
  }

  predicate AllDigits(s: string) {
    forall i | 0 <= i < |s| :: IsDigit(s[i])
  }

  function FormatNat(n: nat): string {
    if n < 10 then ['0' + n as char] else FormatNat(n / 10) + ['0' + (n % 10) as char]
  }

  /** strconv.FormatInt(n, 10), and (*big.Int).String. */
  function FormatInt(n: int): string {
    if n < 0 then "-" + FormatNat(-n) else FormatNat(n)
  }

  function ParseDigits(s: string): nat
    requires AllDigits(s)
  {
    if s == "" then 0 else ParseDigits(s[..|s| - 1]) * 10 + (s[|s| - 1] as int - '0' as int)
  }

  /** (*big.Int).SetString(s, 10). */
  function ParseBig(s: string): Option<int> {
    if s == "" then None
    else if (s[0] == '-' || s[0] == '+') && |s| > 1 && AllDigits(s[1..]) then
      Some((if s[0] == '-' then -1 else 1) * ParseDigits(s[1..]))
    else if AllDigits(s) then Some(ParseDigits(s))
    else None
  }

  /** The value strconv.ParseInt(s, 10, 64) returns beside the error its callers drop: 0 on a
      syntax error, the nearest int64 when out of range. */
  function ParseInt(s: string): int {
    match ParseBig(s)
    case None => 0
    case Some(n) => if n > MAX_INT64 then MAX_INT64 else if n < MIN_INT64 then MIN_INT64 else n
  }

  lemma {:induction false} ParseFormatNat(n: nat)
    ensures FormatNat(n) != "" && AllDigits(FormatNat(n)) && ParseDigits(FormatNat(n)) == n
  {
    if n >= 10 {
      ParseFormatNat(n / 10);
      assert FormatNat(n)[..|FormatNat(n)| - 1] == FormatNat(n / 10);
    } else {
      assert FormatNat(n)[..0] == "";
      assert ParseDigits("") == 0;
    }
  }

  lemma ParseFormatInt(n: int)
    ensures ParseBig(FormatInt(n)) == Some(n) && ColonFree(FormatInt(n))
    ensures MIN_INT64 <= n <= MAX_INT64 ==> ParseInt(FormatInt(n)) == n
  {
    if n < 0 {
      ParseFormatNat(-n);
      assert FormatInt(n)[1..] == FormatNat(-n);
      assert forall i | 1 <= i < |FormatInt(n)| :: FormatInt(n)[i] == FormatNat(-n)[i - 1];
    } else {
      ParseFormatNat(n);
    }
  }

  /** Four fields before others. */
  lemma JoinFour(a: string, b: string, c: string, d: string, rest: seq<string>)
    requires rest != []
    ensures Join([a, b, c, d] + rest) == a + ":" + b + ":" + c + ":" + d + ":" + Join(rest)
  {
    hide Join;
    var s := [a, b, c, d] + rest;
    assert s[1..] == [b, c, d] + rest && s[1..][1..] == [c, d] + rest;
    assert s[1..][1..][1..] == [d] + rest && s[1..][1..][1..][1..] == rest;
    JoinMore(s);
    JoinMore(s[1..]);
    JoinMore(s[1..][1..]);
    JoinMore(s[1..][1..][1..]);
  }

  lemma JoinMore(parts: seq<string>)
    requires |parts| > 1
    ensures Join(parts) == parts[0] + ":" + Join(parts[1..])
  {
  }

  lemma JoinLast(a: string, b: string)
    ensures Join([a]) == a && Join([a, b]) == a + ":" + b
  {
    assert [a, b][1..] == [b];
  }

  /** A number out of range reads as the nearest int64, and text that is no number as 0. */
  lemma ParseIntSaturates(n: int)
    ensures n > 0x7fff_ffff_ffff_ffff ==> ParseInt(FormatInt(n)) == 0x7fff_ffff_ffff_ffff
    ensures n < -0x8000_0000_0000_0000 ==> ParseInt(FormatInt(n)) == -0x8000_0000_0000_0000
    ensures ParseInt("") == 0 && ParseInt("x") == 0 && ParseInt("-") == 0
  {
    ParseFormatInt(n);
    assert !AllDigits("x") && !AllDigits("-") by { assert !IsDigit("x"[0]) && !IsDigit("-"[0]); }
  }

  /** Decimal digits, the most significant first, and a sign for a negative number only. */
  lemma DecimalExamples()
    ensures FormatInt(0) == "0" && FormatInt(7) == "7" && FormatInt(-120) == "-120" && FormatInt(9035) == "9035"
  {
    assert FormatNat(12) == "12" && FormatNat(120) == "120";
    assert FormatNat(90) == "90" && FormatNat(903) == "903";
  }

  // ------------------------------------------------------------------------------------------
  // join, which renders values of several types

  datatype Field = Str(s: string) | Int(n: int) | Bool(b: bool) | Big(big: Option<int>)

  function Render(f: Field): string {
    match f
    case Str(s) => s
    case Int(n) => FormatInt(n)
    case Bool(b) => if b then "1" else "0"
    case Big(None) => "0"
    case Big(Some(n)) => FormatInt(n)
  }

  function RenderAll(fields: seq<Field>): (parts: seq<string>)
    ensures |parts| == |fields| && forall i | 0 <= i < |fields| :: parts[i] == Render(fields[i])
  {
    seq(|fields|, i requires 0 <= i < |fields| => Render(fields[i]))
  }

  /** join (storage/redis.go:285-315). */
  method JoinFields(fields: seq<Field>) returns (text: string)
    ensures text == Join(RenderAll(fields))
  {
    var s: seq<string> := [];
    for i := 0 to |fields|
      invariant s == RenderAll(fields)[..i]
    {
      s := s + [Render(fields[i])];
    }
    assert s == RenderAll(fields);
    text := Join(s);
  }
}
