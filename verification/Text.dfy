/** Numbers as text, and text cut at a separator. */
module Text {
  function Digit(d: int): (c: char)
    requires 0 <= d < 16
    ensures '0' <= c <= '9' || 'A' <= c <= 'F'
  {
    if d < 10 then '0' + d as char else 'A' + (d - 10) as char
  }

  function DigitValue(c: char): int
  {
    if '0' <= c <= '9' then (c - '0') as int else if 'A' <= c <= 'F' then 10 + (c - 'A') as int else 0
  }

  predicate IsBase(base: int)
  {
    base == 10 || base == 16
  }

  /** The number without its last digit, and that digit. */
  function Front(n: nat, base: int): (r: nat)
    requires IsBase(base)
    ensures n >= base ==> r < n
  {
    if base == 16 then n / 16 else n / 10
  }

  function Last(n: nat, base: int): (r: nat)
    requires IsBase(base)
    ensures r < base && Front(n, base) * base + r == n
  {
    if base == 16 then n % 16 else n % 10
  }

  /** `n` in base 10 or 16, without leading zeros. */
  function Numeral(n: nat, base: int): (s: string)
    requires IsBase(base)
    ensures s != "" && forall c :: c in s ==> '0' <= c <= '9' || 'A' <= c <= 'F'
    decreases n
  {
    if n < base then [Digit(n)] else Numeral(Front(n, base), base) + [Digit(Last(n, base))]
  }

  function ValueOf(s: string, base: int): int
  {
    if s == "" then 0 else ValueOf(s[..|s| - 1], base) * base + DigitValue(s[|s| - 1])
  }

  lemma DigitBack(d: int)
    requires 0 <= d < 16
    ensures DigitValue(Digit(d)) == d
  {
  }

  lemma {:induction false} NumeralBack(n: nat, base: int)
    requires IsBase(base)
    ensures ValueOf(Numeral(n, base), base) == n
    decreases n
  {
    hide ValueOf, DigitValue, Digit, Front, Last;
    if n < base {
      DigitBack(n);
      ValueOfSnoc("", Digit(n), base);
      assert "" + [Digit(n)] == [Digit(n)];
      ValueOfNone(base);
    } else {
      DigitBack(Last(n, base));
      NumeralBack(Front(n, base), base);
      ValueOfSnoc(Numeral(Front(n, base), base), Digit(Last(n, base)), base);
    }
  }

  lemma ValueOfNone(base: int)
    ensures ValueOf("", base) == 0
  {
  }

  lemma ValueOfSnoc(s: string, c: char, base: int)
    ensures ValueOf(s + [c], base) == ValueOf(s, base) * base + DigitValue(c)
  {
  }

  function Zeros(n: nat): (s: string)
    ensures |s| == n && forall c :: c in s ==> c == '0'
  {
    if n == 0 then "" else Zeros(n - 1) + "0"
  }

  /** `n` with zeros in front up to `width` digits. */
  function Padded(n: nat, base: int, width: nat): (s: string)
    requires IsBase(base)
    ensures s != "" && forall c :: c in s ==> '0' <= c <= '9' || 'A' <= c <= 'F'
  {
    var s := Numeral(n, base);
    if |s| < width then Zeros(width - |s|) + s else s
  }

  lemma {:induction false} ZerosValue(n: nat, s: string, base: int)
    ensures ValueOf(Zeros(n) + s, base) == ValueOf(s, base)
    decreases n, |s|
  {
    var z := Zeros(n) + s;
    if s == "" {
      assert z == Zeros(n);
      if n > 0 {
        ZerosValue(n - 1, "", base);
        assert Zeros(n - 1) + "" == Zeros(n - 1);
        assert z[..|z| - 1] == Zeros(n - 1);
      }
    } else {
      assert z[..|z| - 1] == Zeros(n) + s[..|s| - 1];
      ZerosValue(n, s[..|s| - 1], base);
    }
  }

  /** Padding does not change what a numeral reads as. */
  lemma PaddedBack(n: nat, base: int, width: nat)
    requires IsBase(base)
    ensures ValueOf(Padded(n, base, width), base) == n
  {
    hide Numeral, ValueOf, Zeros;
    NumeralBack(n, base);
    var s := Numeral(n, base);
    if |s| < width {
      ZerosValue(width - |s|, s, base);
    }
  }

  function Signed(v: int): (s: string)
    ensures forall c :: c in s ==> c == '-' || '0' <= c <= '9' || 'A' <= c <= 'F'
  {
    if v < 0 then "-" + Numeral(-v, 10) else Numeral(v, 10)
  }

  function SignedValue(s: string): int
  {
    if s != "" && s[0] == '-' then -ValueOf(s[1..], 10) else ValueOf(s, 10)
  }

  lemma SignedBack(v: int)
    ensures SignedValue(Signed(v)) == v
  {
    if v < 0 {
      NumeralBack(-v, 10);
      assert Signed(v)[1..] == Numeral(-v, 10);
    } else {
      NumeralBack(v, 10);
      assert Numeral(v, 10)[0] in Numeral(v, 10);
    }
  }

  // ---- What the digits look like ----

  lemma DigitIs(d: int)
    requires 0 <= d < 16
    ensures Digit(d) == "0123456789ABCDEF"[d]
  {
  }

  /** A numeral has the digits of its base and no leading zero. */
  lemma {:induction false} NumeralIs(n: nat, base: int)
    requires IsBase(base)
    ensures forall c :: c in Numeral(n, base) ==> '0' <= c <= '9' || (base == 16 && 'A' <= c <= 'F')
    ensures n > 0 ==> Numeral(n, base)[0] != '0'
    ensures n == 0 ==> Numeral(n, base) == "0"
    decreases n
  {
    if n < base {
      DigitIs(n);
    } else {
      NumeralIs(Front(n, base), base);
      DigitIs(Last(n, base));
      FrontPositive(n, base);
    }
    hide Front, Last;
  }

  lemma FrontPositive(n: nat, base: int)
    requires IsBase(base) && n >= base
    ensures Front(n, base) > 0
  {
  }

  /** Padding puts zeros in front, up to the width and no further. */
  lemma PaddedIs(n: nat, base: int, width: nat)
    requires IsBase(base)
    ensures var s, d := Padded(n, base, width), Numeral(n, base);
            && |s| == (if |d| < width then width else |d|)
            && s[|s| - |d|..] == d && forall i :: 0 <= i < |s| - |d| ==> s[i] == '0'
  {
    hide Numeral;
    var d := Numeral(n, base);
    if |d| < width {
      var zeros := Zeros(width - |d|);
      assert forall i :: 0 <= i < |zeros| ==> zeros[i] in zeros;
      assert (zeros + d)[|zeros|..] == d;
    }
  }

  // ---- Pieces ----

  function Join(pieces: seq<string>, sep: char): string
    requires pieces != []
  {
    if |pieces| == 1 then pieces[0] else Join(pieces[..|pieces| - 1], sep) + [sep] + pieces[|pieces| - 1]
  }

  /** Text added to the last piece. */
  function LastWith(pieces: seq<string>, more: string): (r: seq<string>)
    requires pieces != []
    ensures r != []
  {
    pieces[..|pieces| - 1] + [pieces[|pieces| - 1] + more]
  }

  function Split(s: string, sep: char): (r: seq<string>)
    ensures r != []
  {
    if s == "" then [""]
    else
      var rest := Split(s[..|s| - 1], sep);
      if s[|s| - 1] == sep then rest + [""]
      else LastWith(rest, [s[|s| - 1]])
  }

  lemma LastWithNone(pieces: seq<string>)
    requires pieces != []
    ensures LastWith(pieces, "") == pieces
  {
    assert pieces[|pieces| - 1] + "" == pieces[|pieces| - 1];
  }

  lemma LastWithTwice(pieces: seq<string>, a: string, b: string)
    requires pieces != []
    ensures LastWith(LastWith(pieces, a), b) == LastWith(pieces, a + b)
  {
    assert pieces[|pieces| - 1] + a + b == pieces[|pieces| - 1] + (a + b);
  }

  lemma {:induction false} SplitAppend(s: string, piece: string, sep: char)
    requires sep !in piece
    ensures Split(s + piece, sep) == LastWith(Split(s, sep), piece)
    decreases |piece|
  {
    if piece == "" {
      assert s + piece == s;
      LastWithNone(Split(s, sep));
    } else {
      var before, last := piece[..|piece| - 1], piece[|piece| - 1];
      assert last in piece && forall c :: c in before ==> c in piece;
      SplitAppend(s, before, sep);
      assert (s + piece)[..|s + piece| - 1] == s + before;
      LastWithTwice(Split(s, sep), before, [last]);
      assert before + [last] == piece;
    }
    hide LastWith;
  }

  lemma SplitAtSep(s: string, sep: char)
    ensures Split(s + [sep], sep) == Split(s, sep) + [""]
  {
  }

  /** Cutting after a separator and a piece without one gives that piece. */
  lemma SplitSnoc(s: string, piece: string, sep: char)
    requires sep !in piece
    ensures Split(s + [sep] + piece, sep) == Split(s, sep) + [piece]
  {
    hide Split;
    SplitAtSep(s, sep);
    SplitAppend(s + [sep], piece, sep);
    assert "" + piece == piece;
  }

  lemma SplitPiece(piece: string, sep: char)
    requires sep !in piece
    ensures Split(piece, sep) == [piece]
  {
    SplitAppend("", piece, sep);
    assert "" + piece == piece;
  }

  /** Cutting what was joined gives the pieces back. */
  lemma {:induction false} SplitJoin(pieces: seq<string>, sep: char)
    requires pieces != [] && forall i :: 0 <= i < |pieces| ==> sep !in pieces[i]
    ensures Split(Join(pieces, sep), sep) == pieces
  {
    hide Split;
    var last := pieces[|pieces| - 1];
    if |pieces| == 1 {
      SplitPiece(last, sep);
    } else {
      var before := pieces[..|pieces| - 1];
      SplitJoin(before, sep);
      SplitSnoc(Join(before, sep), last, sep);
      assert pieces == before + [last];
    }
  }
}
