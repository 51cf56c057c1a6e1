/**
 * The Chilean RUN (national identity number) validator: a recogniser for the written
 * form `^\d{1,2}\.?\d{3}\.?\d{3}-[\dkK]$` and the modulo-11 check character.
 */
module ValidadorRun {
  import opened Text
  import opened Results

  /** The characters the last position of a RUN may hold. */
  predicate IsCheckChar(c: char) {
    IsDigit(c) || c == 'k' || c == 'K'
  }

  /**
   * A RUN cut along the pattern: one or two leading digits, an optional dot, three digits,
   * an optional dot, three digits, the hyphen and the check character.
   */
  datatype RunParts = RunParts(lead: string, dot1: bool, mid: string, dot2: bool, tail: string, dv: char)
  {
    predicate WellFormed() {
      && 1 <= |lead| <= 2 && AllDigits(lead)
      && |mid| == 3 && AllDigits(mid)
      && |tail| == 3 && AllDigits(tail)
      && IsCheckChar(dv)
    }

    /** The seven or eight body digits, without separators. */
    function Body(): string {
      lead + mid + tail
    }
  }

  function Dot(present: bool): string {
    if present then "." else ""
  }

  /** The written form of a cut RUN. */
  function Render(p: RunParts): string {
    p.lead + Dot(p.dot1) + p.mid + Dot(p.dot2) + p.tail + "-" + [p.dv]
  }

  /** Splits an optional trailing dot off `x`. */
  function StripDot(x: string): (r: (string, bool))
    ensures x == r.0 + Dot(r.1)
  {
    if |x| > 0 && x[|x| - 1] == '.' then (x[..|x| - 1], true) else (x, false)
  }

  lemma StripDotRender(y: string, d: bool)
    requires y != [] && IsDigit(y[|y| - 1])
    ensures StripDot(y + Dot(d)) == (y, d)
  {
    if d {
      assert (y + Dot(d))[..|y|] == y;
    } else {
      assert y + Dot(d) == y;
    }
  }

  /** The three cuts `Parse` makes, glued back together, give the string it read. */
  lemma Reensamblar(s: string, b: string, b2: string, p: RunParts)
    requires |s| >= 2 && b == s[..|s| - 2] && s[|s| - 2] == '-' && p.dv == s[|s| - 1]
    requires |b| >= 3 && p.tail == b[|b| - 3..] && b[..|b| - 3] == b2 + Dot(p.dot2)
    requires |b2| >= 3 && p.mid == b2[|b2| - 3..] && b2[..|b2| - 3] == p.lead + Dot(p.dot1)
    ensures Render(p) == s
  {
    assert b2 == p.lead + Dot(p.dot1) + p.mid by {
      assert b2 == b2[..|b2| - 3] + b2[|b2| - 3..];
    }
    assert b == b2 + Dot(p.dot2) + p.tail by {
      assert b == b[..|b| - 3] + b[|b| - 3..];
    }
    assert s == b + "-" + [p.dv] by {
      assert s == s[..|s| - 2] + s[|s| - 2..];
      assert s[|s| - 2..] == "-" + [p.dv];
    }
  }

  /** A hand-written recogniser for the pattern, reading the string from its right end. */
  function Parse(s: string): (r: Option<RunParts>)
    ensures r.Some? ==> r.value.WellFormed() && Render(r.value) == s
  {
    if |s| < 2 || s[|s| - 2] != '-' || !IsCheckChar(s[|s| - 1]) then None
    else
      var b := s[..|s| - 2];
      if |b| < 3 || !AllDigits(b[|b| - 3..]) then None
      else
        var (b2, dot2) := StripDot(b[..|b| - 3]);
        if |b2| < 3 || !AllDigits(b2[|b2| - 3..]) then None
        else
          var (lead, dot1) := StripDot(b2[..|b2| - 3]);
          if 1 <= |lead| <= 2 && AllDigits(lead) then
            var p := RunParts(lead, dot1, b2[|b2| - 3..], dot2, b[|b| - 3..], s[|s| - 1]);
            Reensamblar(s, b, b2, p);
            Some(p)
          else None
  }

  /** The two halves of a concatenation are its prefix and suffix at the seam. */
  lemma Partir(x: string, y: string)
    ensures (x + y)[..|x|] == x && (x + y)[|x|..] == y
  {
  }

  /** The last two characters of a rendered RUN are the hyphen and the check character. */
  lemma CortarGuion(p: RunParts)
    ensures |Render(p)| >= 2
    ensures Render(p)[|Render(p)| - 2] == '-' && Render(p)[|Render(p)| - 1] == p.dv
    ensures Render(p)[..|Render(p)| - 2] == p.lead + Dot(p.dot1) + p.mid + Dot(p.dot2) + p.tail
  {
    var b := p.lead + Dot(p.dot1) + p.mid + Dot(p.dot2) + p.tail;
    assert Render(p) == b + ("-" + [p.dv]);
    Partir(b, "-" + [p.dv]);
  }

  /** Reading the body from the right: three digits, an optional dot, three digits, an optional dot. */
  lemma CortarCuerpo(p: RunParts)
    requires p.WellFormed()
    ensures var b := p.lead + Dot(p.dot1) + p.mid + Dot(p.dot2) + p.tail;
            && |b| >= 3 && b[|b| - 3..] == p.tail
            && StripDot(b[..|b| - 3]) == (p.lead + Dot(p.dot1) + p.mid, p.dot2)
  {
    var b2 := p.lead + Dot(p.dot1) + p.mid;
    var b1 := b2 + Dot(p.dot2);
    Partir(b1, p.tail);
    assert b2[|b2| - 1] == p.mid[2];
    StripDotRender(b2, p.dot2);
  }

  /** ... and the same for the first group. */
  lemma CortarCabeza(p: RunParts)
    requires p.WellFormed()
    ensures var b2 := p.lead + Dot(p.dot1) + p.mid;
            && |b2| >= 3 && b2[|b2| - 3..] == p.mid
            && StripDot(b2[..|b2| - 3]) == (p.lead, p.dot1)
  {
    Partir(p.lead + Dot(p.dot1), p.mid);
    StripDotRender(p.lead, p.dot1);
  }

  /** Every well-formed cut is read back by the recogniser: the pattern is unambiguous. */
  lemma ParseRender(p: RunParts)
    requires p.WellFormed()
    ensures Parse(Render(p)) == Some(p)
  {
    CortarGuion(p);
    CortarCuerpo(p);
    CortarCabeza(p);
  }

  /**
   * `validarFormato`: true exactly for the strings the pattern describes; the empty string
   * (and the null reference, which Dafny strings cannot be) is rejected.
   */
  function ValidarFormato(run: string): (ok: bool)
    ensures ok <==> exists p: RunParts :: p.WellFormed() && Render(p) == run
    ensures run == [] ==> !ok
  {
    FormatComplete(run);
    Parse(run).Some?
  }

  lemma FormatComplete(run: string)
    ensures (exists p: RunParts :: p.WellFormed() && Render(p) == run) ==> Parse(run).Some?
  {
    if p: RunParts :| p.WellFormed() && Render(p) == run {
      ParseRender(p);
    }
  }

  /** `limpiarRUN`: the string without its dots and hyphens. */
  function Limpiar(run: string): (r: string)
    ensures forall i | 0 <= i < |r| :: r[i] != '.' && r[i] != '-'
    ensures |r| <= |run|
  {
    if run == [] then []
    else (if run[0] == '.' || run[0] == '-' then [] else [run[0]]) + Limpiar(run[1..])
  }

  lemma {:induction false} LimpiarConcat(a: string, b: string)
    ensures Limpiar(a + b) == Limpiar(a) + Limpiar(b)
  {
    if a == [] {
      assert a + b == b;
    } else {
      assert (a + b)[1..] == a[1..] + b;
      LimpiarConcat(a[1..], b);
    }
  }

  lemma {:induction false} LimpiarDigits(a: string)
    requires AllDigits(a)
    ensures Limpiar(a) == a
  {
    if a != [] {
      LimpiarDigits(a[1..]);
    }
  }

  /** An optional dot disappears in cleaning. */
  lemma LimpiarPunto(x: string, d: bool)
    ensures Limpiar(x + Dot(d)) == Limpiar(x)
  {
    LimpiarConcat(x, Dot(d));
    assert Limpiar(Dot(d)) == [];
  }

  /** Appending digits appends them to the cleaned string. */
  lemma LimpiarMasDigitos(x: string, digits: string)
    requires AllDigits(digits)
    ensures Limpiar(x + digits) == Limpiar(x) + digits
  {
    LimpiarConcat(x, digits);
    LimpiarDigits(digits);
  }

  /** Cleaning the part before the hyphen leaves the body digits. */
  lemma LimpiarCuerpo(p: RunParts)
    requires p.WellFormed()
    ensures Limpiar(p.lead + Dot(p.dot1) + p.mid + Dot(p.dot2) + p.tail) == p.Body()
  {
    var x1 := p.lead + Dot(p.dot1);
    var x2 := x1 + p.mid;
    var x3 := x2 + Dot(p.dot2);
    LimpiarDigits(p.lead);
    LimpiarPunto(p.lead, p.dot1);
    LimpiarMasDigitos(x1, p.mid);
    LimpiarPunto(x2, p.dot2);
    LimpiarMasDigitos(x3, p.tail);
  }

  /** Cleaning a well-formed RUN leaves exactly its body digits followed by its check character. */
  lemma LimpiarRender(p: RunParts)
    requires p.WellFormed()
    ensures Limpiar(Render(p)) == p.Body() + [p.dv]
  {
    var x4 := p.lead + Dot(p.dot1) + p.mid + Dot(p.dot2) + p.tail;
    var x5 := x4 + "-";
    assert Render(p) == x5 + [p.dv];
    LimpiarCuerpo(p);
    LimpiarConcat(x4, "-");
    assert Limpiar("-") == [];
    LimpiarConcat(x5, [p.dv]);
    assert Limpiar([p.dv]) == [p.dv];
  }

  /** The weights 2, 3, 4, 5, 6, 7, 2, 3, ... by distance from the right end of the body. */
  function Weight(k: nat): int {
    2 + k % 6
  }

  function DigitValue(c: char): int
    requires IsDigit(c)
  {
    c as int - '0' as int
  }

  /** After 7 the multiplier restarts at 2. */
  lemma WeightStep(k: nat)
    ensures Weight(k + 1) == if Weight(k) + 1 > 7 then 2 else Weight(k) + 1
  {
  }

  /** Each body digit times the weight of its distance from the right end, summed. */
  function WeightedSum(body: string): nat
    requires AllDigits(body)
  {
    if body == [] then 0
    else WeightedSum(body[1..]) + DigitValue(body[0]) * Weight(|body| - 1)
  }

  /** The check character a weighted sum calls for: 11 - sum % 11, with 11 written '0' and 10 'K'. */
  function CheckCharFor(sum: nat): (c: char)
    ensures c == '0' <==> sum % 11 == 0
    ensures c == 'K' <==> sum % 11 == 1
    ensures sum % 11 >= 2 ==> IsDigit(c) && DigitValue(c) == 11 - sum % 11
  {
    var result := 11 - sum % 11;
    if result == 11 then '0'
    else if result == 10 then 'K'
    else (result + '0' as int) as char
  }

  /** Distinct remainders give distinct characters, and every character is an upper-case check character. */
  lemma CheckCharInjective(a: nat, b: nat)
    ensures IsCheckChar(CheckCharFor(a)) && ToUpper(CheckCharFor(a)) == CheckCharFor(a)
    ensures CheckCharFor(a) == CheckCharFor(b) <==> a % 11 == b % 11
  {
    if a % 11 >= 2 && b % 11 >= 2 && CheckCharFor(a) == CheckCharFor(b) {
      assert DigitValue(CheckCharFor(a)) == DigitValue(CheckCharFor(b));
    }
  }

  /** The reference check character of a digit body. */
  function ExpectedCheckChar(body: string): char
    requires AllDigits(body)
  {
    CheckCharFor(WeightedSum(body))
  }

  /**
   * `calcularDigitoVerificador`: the source's loop, walking the body right to left with a
   * multiplier that climbs from 2 to 7 and restarts at 2. It is private and only ever called
   * on the digit-only body of a well-formed RUN.
   */
  method CalcularDigitoVerificador(runSinDv: string) returns (dv: char)
    requires AllDigits(runSinDv)
    ensures dv == ExpectedCheckChar(runSinDv)
  {
    var suma := 0;
    var multiplicador := 2;
    var i := |runSinDv|;
    while i > 0
      invariant 0 <= i <= |runSinDv|
      invariant suma == WeightedSum(runSinDv[i..])
      invariant multiplicador == Weight(|runSinDv| - i)
    {
      i := i - 1;
      assert runSinDv[i..][1..] == runSinDv[i + 1..];
      WeightStep(|runSinDv| - i - 1);
      var digito := runSinDv[i] as int - '0' as int;
      assert digito == DigitValue(runSinDv[i..][0]);
      suma := suma + digito * multiplicador;
      multiplicador := multiplicador + 1;
      if multiplicador > 7 {
        multiplicador := 2;
      }
    }
    assert runSinDv[0..] == runSinDv;
    var resto := suma % 11;
    var resultado := 11 - resto;
    if resultado == 11 {
      dv := '0';
    } else if resultado == 10 {
      dv := 'K';
    } else {
      dv := (resultado + '0' as int) as char;
    }
  }

  lemma AllDigitsConcat(a: string, b: string)
    requires AllDigits(a) && AllDigits(b)
    ensures AllDigits(a + b)
  {
  }

  /**
   * `validarDigitoVerificador`: a well-formed RUN whose supplied check character, compared
   * without regard to case, is the one its body calls for.
   */
  function ValidarDigitoVerificador(run: string): (ok: bool)
    ensures ok ==> ValidarFormato(run)
  {
    if !ValidarFormato(run) then false
    else
      var p := Parse(run).value;
      LimpiarRender(p);
      AllDigitsConcat(p.lead, p.mid);
      AllDigitsConcat(p.lead + p.mid, p.tail);
      var limpio := Limpiar(run);
      var sinDv := limpio[..|limpio| - 1];
      var dvIngresado := limpio[|limpio| - 1];
      assert sinDv == p.Body();
      ToUpper(dvIngresado) == ToUpper(ExpectedCheckChar(sinDv))
  }

  /** `validarRUN`: format and check character; the format test adds nothing to the second. */
  function ValidarRun(run: string): (ok: bool)
    ensures ok == ValidarDigitoVerificador(run)
  {
    ValidarFormato(run) && ValidarDigitoVerificador(run)
  }
}
