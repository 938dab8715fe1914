/** Character classes and string helpers, restricted to ASCII: the Python code
    uses `str.upper`, `str.isalpha`, `str.isdigit`, `\s` and `\d`, which agree
    with these on ASCII text. */
module Text {

  predicate IsDigit(c: char) { '0' <= c <= '9' }
  predicate IsUpper(c: char) { 'A' <= c <= 'Z' }
  predicate IsLower(c: char) { 'a' <= c <= 'z' }
  predicate IsLetter(c: char) { IsUpper(c) || IsLower(c) }

  /** `str.isspace()` on ASCII: tab to carriage return, the four separators and space. */
  predicate IsSpace(c: char) { 9 <= c as int <= 13 || 28 <= c as int <= 32 }

  function ToUpper(c: char): (u: char)
    ensures IsLower(c) ==> IsUpper(u) && u as int == c as int - 32
    ensures !IsLower(c) ==> u == c
  {
    if IsLower(c) then (c as int - 32) as char else c
  }

  function ToLower(c: char): (l: char)
    ensures IsUpper(c) ==> IsLower(l) && l as int == c as int + 32
    ensures !IsUpper(c) ==> l == c
  {
    if IsUpper(c) then (c as int + 32) as char else c
  }

  function UpperAll(s: string): (r: string)
    ensures |r| == |s|
    ensures forall i :: 0 <= i < |s| ==> r[i] == ToUpper(s[i])
  {
    seq(|s|, i requires 0 <= i < |s| => ToUpper(s[i]))
  }

  function LowerAll(s: string): (r: string)
    ensures |r| == |s|
    ensures forall i :: 0 <= i < |s| ==> r[i] == ToLower(s[i])
  {
    seq(|s|, i requires 0 <= i < |s| => ToLower(s[i]))
  }

  /** `s[i..j]` is what remains of `s` once a run of characters satisfying
      `blank` is cut from each end. */
  predicate TrimmedAt(s: string, blank: char -> bool, i: int, j: int)
  {
    && 0 <= i <= j <= |s|
    && (forall k :: 0 <= k < i ==> blank(s[k]))
    && (forall k :: j <= k < |s| ==> blank(s[k]))
  }

  /** Drop the leading and trailing characters that satisfy `blank`: the
      result is a slice of `s` with only blanks outside it, and it is empty
      or starts and ends with a non-blank. */
  function Trim(s: string, blank: char -> bool): (r: string)
    ensures |r| <= |s|
    ensures exists i, j :: TrimmedAt(s, blank, i, j) && r == s[i..j]
    ensures r != [] ==> !blank(r[0]) && !blank(r[|r| - 1])
  {
    if s == [] then
      assert TrimmedAt(s, blank, 0, 0) && s[0..0] == [];
      []
    else if blank(s[0]) then
      var r := Trim(s[1..], blank);
      TrimFront(s, blank, r);
      r
    else if blank(s[|s| - 1]) then
      var r := Trim(s[..|s| - 1], blank);
      TrimBack(s, s[..|s| - 1], blank, r);
      r
    else
      assert TrimmedAt(s, blank, 0, |s|) && s[0..|s|] == s;
      s
  }

  lemma TrimFront(s: string, blank: char -> bool, r: string)
    requires s != [] && blank(s[0])
    requires exists i, j :: TrimmedAt(s[1..], blank, i, j) && r == s[1..][i..j]
    ensures exists i, j :: TrimmedAt(s, blank, i, j) && r == s[i..j]
  {
    var i, j :| TrimmedAt(s[1..], blank, i, j) && r == s[1..][i..j];
    forall k | 0 <= k < i + 1 ensures blank(s[k]) {
      if k > 0 { assert s[k] == s[1..][k - 1]; }
    }
    forall k | j + 1 <= k < |s| ensures blank(s[k]) {
      assert s[k] == s[1..][k - 1];
    }
    assert TrimmedAt(s, blank, i + 1, j + 1) && r == s[i + 1..j + 1];
  }

  lemma TrimBack(s: string, t: string, blank: char -> bool, r: string)
    requires s != [] && blank(s[|s| - 1]) && t == s[..|s| - 1]
    requires exists i, j :: TrimmedAt(t, blank, i, j) && r == t[i..j]
    ensures exists i, j :: TrimmedAt(s, blank, i, j) && r == s[i..j]
  {
    var i, j :| TrimmedAt(t, blank, i, j) && r == t[i..j];
    forall k | 0 <= k < i ensures blank(s[k]) {
      assert s[k] == t[k];
    }
    forall k | j <= k < |s| ensures blank(s[k]) {
      if k < |s| - 1 { assert s[k] == t[k]; }
    }
    assert TrimmedAt(s, blank, i, j) && r == s[i..j];
  }

  /** `str.strip()`: drop leading and trailing whitespace. */
  function Strip(s: string): string
  {
    Trim(s, IsSpace)
  }

  predicate AllDigits(s: string)
  {
    forall i :: 0 <= i < |s| ==> IsDigit(s[i])
  }

  function DigitValue(c: char): (d: nat)
    requires IsDigit(c)
    ensures d < 10
  {
    c as int - '0' as int
  }

  function DigitChar(d: nat): (c: char)
    requires d < 10
    ensures IsDigit(c) && DigitValue(c) == d
  {
    ('0' as int + d) as char
  }

  function Pow10(n: nat): (p: nat)
    ensures p >= 1
  {
    if n == 0 then 1 else 10 * Pow10(n - 1)
  }

  /** The value of a string of decimal digits, read left to right. */
  function ParseDigits(s: string): nat
    requires AllDigits(s)
  {
    if s == [] then 0 else 10 * ParseDigits(s[..|s| - 1]) + DigitValue(s[|s| - 1])
  }

  /** `f"{n:0<width>d}"` for a number with at most `width` digits. */
  function PadDigits(n: nat, width: nat): (s: string)
    ensures |s| == width && AllDigits(s)
  {
    if width == 0 then [] else PadDigits(n / 10, width - 1) + [DigitChar(n % 10)]
  }

  /** Zero-padding loses nothing: the padded text reads back as the number. */
  lemma {:induction false} ParsePadDigits(n: nat, width: nat)
    requires n < Pow10(width)
    ensures ParseDigits(PadDigits(n, width)) == n
  {
    if width > 0 {
      var s := PadDigits(n, width);
      assert s[..|s| - 1] == PadDigits(n / 10, width - 1);
      ParsePadDigits(n / 10, width - 1);
    }
  }

  /** `str(n)` for a natural number: its decimal digits, no leading zero. */
  function NatToString(n: nat): (s: string)
    ensures AllDigits(s) && s != []
    ensures (s[0] == '0') <==> n == 0
    decreases n
  {
    if n < 10 then [DigitChar(n)] else NatToString(n / 10) + [DigitChar(n % 10)]
  }

  /** Reading the decimal text back gives the number. */
  lemma {:induction false} ParseNatToString(n: nat)
    ensures ParseDigits(NatToString(n)) == n
    decreases n
  {
    var s := NatToString(n);
    if n < 10 {
      assert s[..|s| - 1] == [];
    } else {
      assert s[..|s| - 1] == NatToString(n / 10);
      ParseNatToString(n / 10);
    }
  }

  /** `str(i)` for any integer: a minus sign exactly for a negative number,
      then decimal digits without a leading zero that read back as `|i|`. */
  function IntToString(i: int): (s: string)
    ensures s != [] && ((s[0] == '-') <==> i < 0)
    ensures var d := if i < 0 then s[1..] else s;
            && d != [] && AllDigits(d) && ParseDigits(d) == (if i < 0 then -i else i)
            && ((d[0] == '0') <==> i == 0)
  {
    if i >= 0 then
      ParseNatToString(i);
      NatToString(i)
    else
      var d := NatToString(-i);
      ParseNatToString(-i);
      assert ("-" + d)[1..] == d;
      "-" + d
  }

  /** Trimming text with no blank in it changes nothing. */
  lemma TrimSinBlancos(s: string, blank: char -> bool)
    requires forall k :: 0 <= k < |s| ==> !blank(s[k])
    ensures Trim(s, blank) == s
  {
    if s != [] {
      assert !blank(s[0]) && !blank(s[|s| - 1]);
    }
  }

  /** The unsigned part of a base-10 Python integer literal: digits, where a
      single underscore may stand between two digits. */
  predicate CifrasConGuiones(s: string)
  {
    && s != [] && IsDigit(s[0]) && IsDigit(s[|s| - 1])
    && (forall i :: 0 <= i < |s| ==> IsDigit(s[i]) || s[i] == '_')
    && (forall i :: 0 <= i < |s| - 1 ==> s[i] == '_' ==> s[i + 1] != '_')
  }

  /** The text with every underscore removed, the other characters in order. */
  function SinGuiones(s: string): (r: string)
    ensures |r| <= |s|
    ensures forall i :: 0 <= i < |r| ==> r[i] != '_' && r[i] in s
    ensures AllDigits(s) ==> r == s
  {
    if s == [] then []
    else
      var t := SinGuiones(s[1..]);
      assert forall i :: 0 <= i < |t| ==> t[i] in s;
      if s[0] == '_' then t
      else
        assert forall i :: 0 <= i < |t| ==> ([s[0]] + t)[i + 1] == t[i];
        [s[0]] + t
  }

  /** What `int()` reads from a text: a sign and the digits of the number,
      or the `ValueError` it raises. */
  datatype Entero = Entero(negativo: bool, cifras: string) | NoEntero

  /** `int(texto)` in base 10: the blanks around the text are ignored, then
      one optional `+` or `-`, then `CifrasConGuiones`; any other text is a
      `ValueError`. */
  function LeerEntero(texto: string): (r: Entero)
    ensures r.Entero? ==> r.cifras != [] && AllDigits(r.cifras)
    ensures texto != [] && AllDigits(texto) ==> r == Entero(false, texto)
    ensures Strip(texto) == [] ==> r == NoEntero
  {
    StripDigitos(texto);
    var t := Strip(texto);
    var cuerpo := if t != [] && (t[0] == '+' || t[0] == '-') then t[1..] else t;
    if CifrasConGuiones(cuerpo) then
      CifrasSinGuiones(cuerpo);
      Entero(t[0] == '-', SinGuiones(cuerpo))
    else
      NoEntero
  }

  lemma StripDigitos(s: string)
    ensures AllDigits(s) ==> Strip(s) == s
  {
    if AllDigits(s) {
      TrimSinBlancos(s, IsSpace);
    }
  }

  lemma CifrasSinGuiones(s: string)
    requires CifrasConGuiones(s)
    ensures SinGuiones(s) != [] && AllDigits(SinGuiones(s))
  {
    assert s[0] in s && SinGuiones(s)[0] == s[0];
    forall i | 0 <= i < |SinGuiones(s)| ensures IsDigit(SinGuiones(s)[i]) {
      var c := SinGuiones(s)[i];
      var k :| 0 <= k < |s| && s[k] == c;
    }
  }

  /** `int()` ignores the blanks around the text. */
  lemma EnteroConBlanco()
    ensures LeerEntero(" 12") == Entero(false, "12")
  {
    assert Strip(" 12") == "12" by {
      assert " 12"[1..] == "12";
      TrimSinBlancos("12", IsSpace);
    }
  }

  /** `int()` takes one leading `+` or `-`. */
  lemma EnteroConSigno(s: string, d: string)
    requires |s| >= 2 && (s[0] == '+' || s[0] == '-') && s[1..] == d && AllDigits(d)
    ensures LeerEntero(s) == Entero(s[0] == '-', d)
  {
    LeerSinBlancos(s);
  }

  /** `int()` skips an underscore between digits: "1_000" reads as 1000. */
  lemma EnteroConGuion(a: string, b: string)
    requires a != [] && b != [] && AllDigits(a) && AllDigits(b)
    ensures LeerEntero(a + "_" + b) == Entero(false, a + b)
  {
    var s := a + "_" + b;
    UnGuion(a, b);
    forall k | 0 <= k < |s| ensures !IsSpace(s[k]) {
      assert IsDigit(s[k]) || s[k] == '_';
    }
    assert s[0] == a[0];
    LeerSinBlancos(s);
  }

  /** Two digit runs joined by one underscore form a literal whose digits are
      the two runs. */
  lemma UnGuion(a: string, b: string)
    requires a != [] && b != [] && AllDigits(a) && AllDigits(b)
    ensures CifrasConGuiones(a + "_" + b)
    ensures SinGuiones(a + "_" + b) == a + b
  {
    GuionEntreCifras(a, b);
    SinGuionesConcat(a + "_", b);
    SinGuionesConcat(a, "_");
  }

  lemma GuionEntreCifras(a: string, b: string)
    requires a != [] && b != [] && AllDigits(a) && AllDigits(b)
    ensures CifrasConGuiones(a + "_" + b)
  {
    var s := a + "_" + b;
    forall i | 0 <= i < |s| ensures (IsDigit(s[i]) || s[i] == '_') && (s[i] == '_' ==> i == |a|) {
      if i < |a| { assert s[i] == a[i]; }
      else if i > |a| { assert s[i] == b[i - |a| - 1]; }
    }
    forall i | 0 <= i < |s| - 1 && s[i] == '_' ensures s[i + 1] != '_' {
      assert s[i + 1] == b[0];
    }
    assert s[|s| - 1] == b[|b| - 1];
  }

  lemma {:induction false} SinGuionesConcat(x: string, y: string)
    ensures SinGuiones(x + y) == SinGuiones(x) + SinGuiones(y)
  {
    if x != [] {
      assert (x + y)[0] == x[0] && (x + y)[1..] == x[1..] + y;
      SinGuionesConcat(x[1..], y);
    } else {
      assert x + y == y;
    }
  }

  /** `int()` refuses doubled or leading underscores and other characters. */
  lemma EnterosRechazados()
    ensures LeerEntero("1__0") == NoEntero
    ensures LeerEntero("_1") == NoEntero
    ensures LeerEntero("12a") == NoEntero
  {
    LeerSinBlancos("1__0");
    assert "1__0"[1] == '_' && "1__0"[2] == '_';
    LeerSinBlancos("_1");
    LeerSinBlancos("12a");
    assert !IsDigit("12a"[2]);
  }

  /** Without blanks, `int()` reads the text itself. */
  lemma LeerSinBlancos(s: string)
    requires s != [] && forall k :: 0 <= k < |s| ==> !IsSpace(s[k])
    ensures var cuerpo := if s[0] == '+' || s[0] == '-' then s[1..] else s;
            LeerEntero(s) == if CifrasConGuiones(cuerpo) then Entero(s[0] == '-', SinGuiones(cuerpo)) else NoEntero
  {
    TrimSinBlancos(s, IsSpace);
  }

  /** The integer an `Entero` stands for. */
  function Valor(e: Entero): int
    requires e.Entero? && AllDigits(e.cifras)
  {
    var n: int := ParseDigits(e.cifras);
    if e.negativo then -n else n
  }

  /** `int(str(i)) == i`. */
  lemma IntIdaVuelta(i: int)
    ensures LeerEntero(IntToString(i)).Entero?
    ensures Valor(LeerEntero(IntToString(i))) == i
  {
    var s := IntToString(i);
    TrimSinBlancos(s, IsSpace);
    var d := if i < 0 then s[1..] else s;
    assert Strip(s) == s;
    assert CifrasConGuiones(d);
  }

  predicate StartsWith(s: string, p: string) { |p| <= |s| && s[..|p|] == p }

  predicate EndsWith(s: string, p: string) { |p| <= |s| && s[|s| - |p|..] == p }

  /** Python's `p in s` on strings. */
  predicate Contains(s: string, p: string)
  {
    exists i :: 0 <= i <= |s| && StartsWith(s[i..], p)
  }

  /** Python's `<` on strings: lexicographic by code point, a proper prefix first. */
  predicate Less(a: string, b: string)
  {
    if a == [] then b != []
    else if b == [] then false
    else if a[0] != b[0] then a[0] < b[0]
    else Less(a[1..], b[1..])
  }

  lemma {:induction false} LessIrreflexive(a: string)
    ensures !Less(a, a)
  {
    if a != [] { LessIrreflexive(a[1..]); }
  }

  lemma {:induction false} LessTransitive(a: string, b: string, c: string)
    requires Less(a, b) && Less(b, c)
    ensures Less(a, c)
  {
    if a != [] && b != [] && c != [] && a[0] == b[0] && b[0] == c[0] {
      LessTransitive(a[1..], b[1..], c[1..]);
    }
  }

  lemma {:induction false} LessTotal(a: string, b: string)
    requires a != b
    ensures Less(a, b) || Less(b, a)
  {
    if a != [] && b != [] && a[0] == b[0] {
      assert a == [a[0]] + a[1..] && b == [b[0]] + b[1..];
      LessTotal(a[1..], b[1..]);
    }
  }

  lemma {:induction false} LessAsymmetric(a: string, b: string)
    requires Less(a, b)
    ensures !Less(b, a)
  {
    if a != [] && b != [] && a[0] == b[0] {
      LessAsymmetric(a[1..], b[1..]);
    }
  }
}
