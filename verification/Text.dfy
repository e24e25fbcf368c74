/** Ruby's string operations used by the storage keys and the resumption tokens. */
module Text {
  import opened Wrappers

  /** The characters of `[[:space:]]`, which `blank?` tests for. */
  predicate IsSpace(c: char) {
    var n := c as int;
    9 <= n <= 13 || n == 32 || n == 0x85 || n == 0xA0 || n == 0x1680 || 0x2000 <= n <= 0x200A
    || n == 0x2028 || n == 0x2029 || n == 0x202F || n == 0x205F || n == 0x3000
  }

  /** Tabs and line breaks, the space, and the wider spaces of Unicode. */
  lemma SpaceCharacters(c: char)
    ensures IsSpace(c) <==>
            c as int in {9, 10, 11, 12, 13, 32, 133, 160, 5760, 8192, 8193, 8194, 8195, 8196, 8197, 8198, 8199, 8200,
                         8201, 8202, 8232, 8233, 8239, 8287, 12288}
  {}

  predicate Blank(s: string) {
    forall i :: 0 <= i < |s| ==> IsSpace(s[i])
  }

  /** `present?` of a string that may be nil. */
  predicate Present(v: Option<string>) { v.Some? && !Blank(v.value) }

  // ----- decimal numbers -----

  function Digit(d: nat): (c: char)
    requires d < 10
    ensures IsDigit(c) && DigitValue(c) == d
  {
    ('0' as int + d) as char
  }

  predicate IsDigit(c: char) { '0' <= c <= '9' }

  function DigitValue(c: char): (d: nat)
    requires IsDigit(c)
  {
    c as int - '0' as int
  }

  function Decimal(n: nat): (s: string)
    ensures s != [] && forall i :: 0 <= i < |s| ==> IsDigit(s[i])
    ensures s[0] == '0' <==> n == 0
    ensures n == 0 ==> s == "0"
  {
    if n < 10 then [Digit(n)] else Decimal(n / 10) + [Digit(n % 10)]
  }

  /** Leading digits of a string. */
  function Digits(s: string): (r: string)
    ensures r <= s && forall i :: 0 <= i < |r| ==> IsDigit(r[i])
  {
    if s != [] && IsDigit(s[0]) then [s[0]] + Digits(s[1..]) else []
  }

  function ValueOf(s: string): nat
    requires forall i :: 0 <= i < |s| ==> IsDigit(s[i])
  {
    if s == [] then 0 else 10 * ValueOf(s[..|s| - 1]) + DigitValue(s[|s| - 1])
  }

  /** `to_i`: an optional sign and the leading digits, 0 when there are none. */
  function ToI(s: string): int {
    if s != [] && s[0] == '-' then -(ValueOf(Digits(s[1..])) as int)
    else if s != [] && s[0] == '+' then ValueOf(Digits(s[1..]))
    else ValueOf(Digits(s))
  }

  lemma {:induction false} ValueOfDecimal(n: nat)
    ensures ValueOf(Decimal(n)) == n
  {
    if n >= 10 {
      ValueOfDecimal(n / 10);
      var s := Decimal(n);
      assert s[..|s| - 1] == Decimal(n / 10);
    } else {
      assert Decimal(n)[..0] == [];
    }
  }

  lemma {:induction false} DigitsThen(s: string, rest: string)
    requires forall i :: 0 <= i < |s| ==> IsDigit(s[i])
    requires rest == "" || !IsDigit(rest[0])
    ensures Digits(s + rest) == s
  {
    if s == [] {
      assert s + rest == rest;
    } else {
      DigitsThen(s[1..], rest);
      assert (s + rest)[1..] == s[1..] + rest;
    }
  }

  /** What follows the digits does not count, and without digits the value is 0. */
  lemma ReadNumber(n: nat, rest: string)
    requires rest == "" || !IsDigit(rest[0])
    ensures ToI(Decimal(n) + rest) == n
    ensures rest == "" || rest[0] !in "+-" ==> ToI(rest) == 0
  {
    DigitsThen(Decimal(n), rest);
    ValueOfDecimal(n);
  }

  lemma ReadSignedNumber(n: nat, rest: string)
    requires rest == "" || !IsDigit(rest[0])
    ensures ToI("-" + (Decimal(n) + rest)) == -(n as int) && ToI("+" + (Decimal(n) + rest)) == n
  {
    var s := Decimal(n) + rest;
    DigitsThen(Decimal(n), rest);
    ValueOfDecimal(n);
    assert ("-" + s)[1..] == s && ("+" + s)[1..] == s;
  }

  lemma DecimalRoundTrip(n: nat)
    ensures ToI(Decimal(n)) == n
  {
    ReadNumber(n, "");
    assert Decimal(n) + "" == Decimal(n);
  }

  lemma DecimalInjective(m: nat, n: nat)
    requires Decimal(m) == Decimal(n)
    ensures m == n
  {
    ValueOfDecimal(m);
    ValueOfDecimal(n);
  }

  // ----- join and split -----

  function Join(ps: seq<string>, c: char): string {
    if ps == [] then ""
    else if |ps| == 1 then ps[0]
    else ps[0] + [c] + Join(ps[1..], c)
  }

  /** All pieces between separators, empty ones included. */
  function Pieces(s: string, c: char): (ps: seq<string>)
    ensures ps != []
  {
    if s == [] then [""]
    else
      var rest := Pieces(s[1..], c);
      if s[0] == c then [""] + rest else [[s[0]] + rest[0]] + rest[1..]
  }

  function DropTrailingEmpty(ps: seq<string>): seq<string> {
    if ps != [] && ps[|ps| - 1] == "" then DropTrailingEmpty(ps[..|ps| - 1]) else ps
  }

  /** `String#split`, which leaves trailing empty pieces out. */
  function Split(s: string, c: char): seq<string> {
    DropTrailingEmpty(Pieces(s, c))
  }

  lemma {:induction false} PiecesLackSeparator(s: string, c: char)
    ensures forall i :: 0 <= i < |Pieces(s, c)| ==> c !in Pieces(s, c)[i]
  {
    if s != [] { PiecesLackSeparator(s[1..], c); }
  }

  lemma {:induction false} PiecesAvoid(s: string, c: char, d: char)
    requires d !in s
    ensures forall i :: 0 <= i < |Pieces(s, c)| ==> d !in Pieces(s, c)[i]
  {
    if s != [] { PiecesAvoid(s[1..], c, d); }
  }

  lemma {:induction false} PiecesOfPlain(s: string, c: char)
    requires c !in s
    ensures Pieces(s, c) == [s]
  {
    if s != [] {
      PiecesOfPlain(s[1..], c);
      assert s == [s[0]] + s[1..];
    }
  }

  lemma {:induction false} PiecesCut(a: string, b: string, c: char)
    requires c !in a
    ensures Pieces(a + [c] + b, c) == [a] + Pieces(b, c)
  {
    var s := a + [c] + b;
    if a == [] {
      assert s[1..] == b;
    } else {
      PiecesCut(a[1..], b, c);
      assert s[1..] == a[1..] + [c] + b;
      assert a == [a[0]] + a[1..];
    }
  }

  lemma {:induction false} JoinPieces(s: string, c: char)
    ensures Join(Pieces(s, c), c) == s
  {
    if s != [] {
      JoinPieces(s[1..], c);
      var rest := Pieces(s[1..], c);
      if s[0] == c {
        assert ([""] + rest)[1..] == rest;
      } else {
        assert ([[s[0]] + rest[0]] + rest[1..])[1..] == rest[1..];
      }
    }
  }

  lemma {:induction false} PiecesOfJoin(ps: seq<string>, c: char)
    requires ps != [] && forall i :: 0 <= i < |ps| ==> c !in ps[i]
    ensures Pieces(Join(ps, c), c) == ps
  {
    if |ps| == 1 {
      PiecesOfPlain(ps[0], c);
    } else {
      PiecesOfJoin(ps[1..], c);
      PiecesCut(ps[0], Join(ps[1..], c), c);
    }
  }

  lemma {:induction false} PiecesThenSeparator(s: string, c: char)
    ensures Pieces(s + [c], c) == Pieces(s, c) + [""]
  {
    if s == [] {
      assert [c][1..] == [];
    } else {
      PiecesThenSeparator(s[1..], c);
      assert (s + [c])[1..] == s[1..] + [c];
    }
  }

  /** The last piece is empty only for an empty string or one that ends in the separator. */
  lemma {:induction false} LastPiece(s: string, c: char)
    ensures var ps := Pieces(s, c);
            ps[|ps| - 1] == "" <==> s == "" || s[|s| - 1] == c
  {
    if s != [] {
      LastPiece(s[1..], c);
      var rest := Pieces(s[1..], c);
      if |rest| == 1 && s[0] != c { assert |Pieces(s, c)[0]| >= 1; }
    }
  }

  lemma {:induction false} JoinAvoids(ps: seq<string>, c: char, d: char)
    requires c != d && forall i :: 0 <= i < |ps| ==> d !in ps[i]
    ensures d !in Join(ps, c)
  {
    if |ps| > 1 { JoinAvoids(ps[1..], c, d); }
  }

  lemma {:induction false} JoinEnd(ps: seq<string>, c: char)
    requires ps != [] && ps[|ps| - 1] != "" && c !in ps[|ps| - 1]
    ensures Join(ps, c) != "" && Join(ps, c)[|Join(ps, c)| - 1] != c
  {
    if |ps| == 1 {
      assert ps[0][|ps[0]| - 1] in ps[0];
    } else {
      JoinEnd(ps[1..], c);
    }
  }

  lemma {:induction false} DropKeeps(ps: seq<string>)
    ensures DropTrailingEmpty(ps) <= ps
    ensures DropTrailingEmpty(ps) != [] ==> DropTrailingEmpty(ps)[|DropTrailingEmpty(ps)| - 1] != ""
    ensures forall i :: |DropTrailingEmpty(ps)| <= i < |ps| ==> ps[i] == ""
  {
    if ps != [] && ps[|ps| - 1] == "" { DropKeeps(ps[..|ps| - 1]); }
  }
}
