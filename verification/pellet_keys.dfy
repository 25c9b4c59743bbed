/** The pellet set names each pellet by the string "row,col" of its tile, written in
    decimal; each frame reads the tile back by splitting at the comma and parsing the
    two parts (Game.start and Game's frame handler). */
module PelletKeys {

  datatype Option<T> = None | Some(value: T)

  predicate IsDigit(ch: char) {
    '0' <= ch <= '9'
  }

  predicate AllDigits(s: string) {
    forall i :: 0 <= i < |s| ==> IsDigit(s[i])
  }

  /** The decimal numeral of n, without leading zeros. */
  function Numeral(n: nat): (s: string)
    ensures |s| >= 1 && AllDigits(s)
    ensures n > 0 ==> s[0] != '0'
    decreases n
  {
    if n < 10 then [DigitChar(n)] else Numeral(n / 10) + [DigitChar(n % 10)]
  }

  function DigitChar(d: nat): (ch: char)
    requires d < 10
    ensures IsDigit(ch)
  {
    ('0' as int + d) as char
  }

  function DigitValue(ch: char): (d: nat)
    requires IsDigit(ch)
    ensures d < 10
  {
    ch as int - '0' as int
  }

  /** The value of a string of decimal digits, most significant first. */
  function Value(s: string): nat
    requires AllDigits(s)
  {
    if |s| == 0 then 0 else Value(s[..|s| - 1]) * 10 + DigitValue(s[|s| - 1])
  }

  /** Integer.parseInt on unsigned numerals: a non-empty run of digits, else failure. */
  function ParseNat(s: string): (r: Option<nat>)
    ensures r.Some? <==> |s| >= 1 && AllDigits(s)
  {
    if |s| >= 1 && AllDigits(s) then Some(Value(s)) else None
  }

  /** Parsing a numeral gives back its number. */
  lemma {:induction false} ParseNumeral(n: nat)
    ensures ParseNat(Numeral(n)) == Some(n)
    decreases n
  {
    var s := Numeral(n);
    if n < 10 {
      assert s[..|s| - 1] == [] && s[|s| - 1] == DigitChar(n);
      assert Value(s) == DigitValue(DigitChar(n)) == n;
    } else {
      ParseNumeral(n / 10);
      assert s[..|s| - 1] == Numeral(n / 10);
    }
  }

  /** The key of the pellet on tile (row, col). */
  function Key(row: nat, col: nat): (k: string)
    ensures ',' in k
  {
    assert (Numeral(row) + [','] + Numeral(col))[|Numeral(row)|] == ',';
    Numeral(row) + [','] + Numeral(col)
  }

  /** The index of the first occurrence of ch in s, or |s| when there is none. */
  function IndexOf(s: string, ch: char): (i: nat)
    ensures i <= |s|
    ensures i < |s| ==> s[i] == ch
    ensures forall j :: 0 <= j < i ==> s[j] != ch
  {
    if |s| == 0 then 0 else if s[0] == ch then 0 else 1 + IndexOf(s[1..], ch)
  }

  /** Reads a key back as its tile: the text before the first comma is the row, the
      text between it and the next comma is the column (what `split(",")` followed by
      parsing the first two parts gives); a key with no comma or with a part that is
      not a numeral is rejected. */
  function ParseKey(k: string): (r: Option<(nat, nat)>)
    ensures r.Some? ==> ',' in k
  {
    var i := IndexOf(k, ',');
    if i == |k| then None
    else
      var rest := k[i + 1..];
      var j := IndexOf(rest, ',');
      match (ParseNat(k[..i]), ParseNat(rest[..j]))
      case (Some(row), Some(col)) => Some((row, col))
      case _ => None
  }

  /** IndexOf finds the first occurrence. */
  lemma {:induction false} IndexOfFirst(s: string, ch: char, i: nat)
    requires i <= |s| && (i < |s| ==> s[i] == ch)
    requires forall j :: 0 <= j < i ==> s[j] != ch
    ensures IndexOf(s, ch) == i
    decreases |s|
  {
    if |s| > 0 && i > 0 {
      IndexOfFirst(s[1..], ch, i - 1);
    }
  }

  lemma {:induction false} NoCommaInNumeral(n: nat)
    ensures forall i :: 0 <= i < |Numeral(n)| ==> Numeral(n)[i] != ','
  {
  }

  /** Reading a key gives back the tile it was made from. */
  lemma {:induction false} ParseKeyOfKey(row: nat, col: nat)
    ensures ParseKey(Key(row, col)) == Some((row, col))
  {
    var a, b := Numeral(row), Numeral(col);
    var k := Key(row, col);
    NoCommaInNumeral(row);
    NoCommaInNumeral(col);
    IndexOfFirst(k, ',', |a|);
    assert k[..|a|] == a;
    var rest := k[|a| + 1..];
    assert rest == b;
    IndexOfFirst(rest, ',', |b|);
    assert rest[..|b|] == b;
    ParseNumeral(row);
    ParseNumeral(col);
  }

  /** Distinct tiles have distinct keys, so the pellet set holds one key per tile. */
  lemma {:induction false} KeyInjective(r1: nat, c1: nat, r2: nat, c2: nat)
    requires Key(r1, c1) == Key(r2, c2)
    ensures r1 == r2 && c1 == c2
  {
    ParseKeyOfKey(r1, c1);
    ParseKeyOfKey(r2, c2);
  }
}
