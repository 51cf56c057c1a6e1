/** What the RUN validator promises: its verdict depends only on the body digits and the check character. */
module ValidadorRunPropiedades {
  import opened Text
  import opened ValidadorRun

  /** A well-formed RUN passes the check exactly when its check character, upper-cased, is the expected one. */
  lemma AcceptsIff(p: RunParts)
    requires p.WellFormed()
    ensures ValidarDigitoVerificador(Render(p)) <==> ToUpper(p.dv) == ExpectedCheckChar(p.Body())
  {
    ParseRender(p);
    LimpiarRender(p);
    AllDigitsConcat(p.lead, p.mid);
    AllDigitsConcat(p.lead + p.mid, p.tail);
    CheckCharInjective(WeightedSum(p.Body()), 0);
    var limpio := Limpiar(Render(p));
    assert limpio[..|limpio| - 1] == p.Body();
  }

  /** `validarRUN` and `validarDigitoVerificador` agree, and both demand the format. */
  lemma ValidarRunIsCheckDigit(run: string)
    ensures ValidarRun(run) <==> ValidarDigitoVerificador(run)
    ensures ValidarRun(run) ==> ValidarFormato(run)
  {
  }

  /** `…-k` and `…-K` get the same verdict. */
  lemma CaseInsensitive(p: RunParts)
    requires p.WellFormed() && (p.dv == 'k' || p.dv == 'K')
    ensures ValidarRun(Render(p.(dv := 'k'))) == ValidarRun(Render(p.(dv := 'K')))
  {
    AcceptsIff(p.(dv := 'k'));
    AcceptsIff(p.(dv := 'K'));
  }

  /** The dotted and the undotted writing of the same RUN get the same verdict. */
  lemma DotsIrrelevant(p: RunParts, dot1: bool, dot2: bool)
    requires p.WellFormed()
    ensures ValidarRun(Render(p.(dot1 := dot1, dot2 := dot2))) == ValidarRun(Render(p))
  {
    AcceptsIff(p);
    AcceptsIff(p.(dot1 := dot1, dot2 := dot2));
  }

  /** For a given body, the accepted check characters all coincide up to the case of k/K. */
  lemma UniqueCheckChar(p: RunParts, q: RunParts)
    requires p.WellFormed() && q.WellFormed() && p.Body() == q.Body()
    requires ValidarRun(Render(p)) && ValidarRun(Render(q))
    ensures ToUpper(p.dv) == ToUpper(q.dv)
  {
    AcceptsIff(p);
    AcceptsIff(q);
  }

  /** Every well-formed body has an accepted check character: the computed one. */
  lemma ExpectedIsAccepted(p: RunParts)
    requires p.WellFormed()
    ensures AllDigits(p.Body())
    ensures ValidarRun(Render(p.(dv := ExpectedCheckChar(p.Body()))))
  {
    AllDigitsConcat(p.lead, p.mid);
    AllDigitsConcat(p.lead + p.mid, p.tail);
    CheckCharInjective(WeightedSum(p.Body()), 0);
    AcceptsIff(p.(dv := ExpectedCheckChar(p.Body())));
  }

  /** Any other check character is rejected. */
  lemma OtherCheckCharRejected(p: RunParts)
    requires p.WellFormed()
    ensures AllDigits(p.Body())
    ensures ToUpper(p.dv) != ExpectedCheckChar(p.Body()) ==> !ValidarRun(Render(p))
  {
    AllDigitsConcat(p.lead, p.mid);
    AllDigitsConcat(p.lead + p.mid, p.tail);
    AcceptsIff(p);
  }

  /** Proves the verdict on `run` from its cut, keeping the literal out of the unfolding. */
  lemma VerdictOf(run: string, p: RunParts, expected: char)
    requires p.WellFormed() && Render(p) == run
    requires AllDigits(p.Body()) && ExpectedCheckChar(p.Body()) == expected
    ensures ValidarRun(run) <==> ToUpper(p.dv) == expected
  {
    AcceptsIff(p);
  }

  lemma Expected12345678()
    ensures ExpectedCheckChar("12345678") == '5'
  {
    assert WeightedSum("12345678") == 138;
    assert CheckCharFor(138) == '5';
  }

  lemma Expected19876543()
    ensures ExpectedCheckChar("19876543") == '0'
  {
    assert WeightedSum("19876543") == 187;
  }

  lemma Expected20123456()
    ensures ExpectedCheckChar("20123456") == '5'
  {
    assert WeightedSum("20123456") == 83;
    assert CheckCharFor(83) == '5';
  }

  /** "12345678-5": weighted sum 138, 138 % 11 == 6, check character '5'. */
  lemma AcceptedVector(run: string)
    requires run == "12345678-5"
    ensures ValidarRun(run)
  {
    var p := RunParts("12", false, "345", false, "678", '5');
    Cut12345678x5();
    Expected12345678();
    VerdictOf(run, p, '5');
  }

  /** How "12345678-5" is cut along the pattern. */
  lemma Cut12345678x5()
    ensures RunParts("12", false, "345", false, "678", '5').WellFormed()
    ensures Render(RunParts("12", false, "345", false, "678", '5')) == "12345678-5"
    ensures RunParts("12", false, "345", false, "678", '5').Body() == "12345678"
  {
  }

  /** The dotted writing "12.345.678-5" of the same RUN is accepted too. */
  lemma AcceptedDottedVector(run: string)
    requires run == "12.345.678-5"
    ensures ValidarRun(run)
  {
    var p := RunParts("12", true, "345", true, "678", '5');
    Cut12x345x678x5();
    Expected12345678();
    VerdictOf(run, p, '5');
  }

  /** How "12.345.678-5" is cut along the pattern. */
  lemma Cut12x345x678x5()
    ensures RunParts("12", true, "345", true, "678", '5').WellFormed()
    ensures Render(RunParts("12", true, "345", true, "678", '5')) == "12.345.678-5"
    ensures RunParts("12", true, "345", true, "678", '5').Body() == "12345678"
  {
  }

  /** "19876543-2": weighted sum 187 == 11 * 17, so '2' is rejected. */
  lemma RejectedVector(run: string)
    requires run == "19876543-2"
    ensures ValidarFormato(run) && !ValidarRun(run)
  {
    var p := RunParts("19", false, "876", false, "543", '2');
    Cut19876543x2();
    Expected19876543();
    VerdictOf(run, p, '0');
  }

  /** How "19876543-2" is cut along the pattern. */
  lemma Cut19876543x2()
    ensures RunParts("19", false, "876", false, "543", '2').WellFormed()
    ensures Render(RunParts("19", false, "876", false, "543", '2')) == "19876543-2"
    ensures RunParts("19", false, "876", false, "543", '2').Body() == "19876543"
  {
  }

  /** ... and '0' is the check character that body calls for. */
  lemma CorrectedVector(run: string)
    requires run == "19876543-0"
    ensures ValidarRun(run)
  {
    var p := RunParts("19", false, "876", false, "543", '0');
    Cut19876543x0();
    Expected19876543();
    VerdictOf(run, p, '0');
  }

  /** How "19876543-0" is cut along the pattern. */
  lemma Cut19876543x0()
    ensures RunParts("19", false, "876", false, "543", '0').WellFormed()
    ensures Render(RunParts("19", false, "876", false, "543", '0')) == "19876543-0"
    ensures RunParts("19", false, "876", false, "543", '0').Body() == "19876543"
  {
  }

  /** "20123456-K": weighted sum 83, 83 % 11 == 6, so '5' is expected and 'K' is rejected. */
  lemma RejectedKVector(run: string)
    requires run == "20123456-K"
    ensures ValidarFormato(run) && !ValidarRun(run)
  {
    var p := RunParts("20", false, "123", false, "456", 'K');
    Cut20123456xK();
    Expected20123456();
    VerdictOf(run, p, '5');
  }

  /** How "20123456-K" is cut along the pattern. */
  lemma Cut20123456xK()
    ensures RunParts("20", false, "123", false, "456", 'K').WellFormed()
    ensures Render(RunParts("20", false, "123", false, "456", 'K')) == "20123456-K"
    ensures RunParts("20", false, "123", false, "456", 'K').Body() == "20123456"
  {
  }

  /** ... and '5' is the check character that body calls for. */
  lemma CorrectedKVector(run: string)
    requires run == "20123456-5"
    ensures ValidarRun(run)
  {
    var p := RunParts("20", false, "123", false, "456", '5');
    Cut20123456x5();
    Expected20123456();
    VerdictOf(run, p, '5');
  }

  /** How "20123456-5" is cut along the pattern. */
  lemma Cut20123456x5()
    ensures RunParts("20", false, "123", false, "456", '5').WellFormed()
    ensures Render(RunParts("20", false, "123", false, "456", '5')) == "20123456-5"
    ensures RunParts("20", false, "123", false, "456", '5').Body() == "20123456"
  {
  }

  /** No character of a well-formed RUN is one `trim` strips. */
  lemma RenderNoWhite(p: RunParts)
    requires p.WellFormed()
    ensures NoWhite(Render(p))
  {
    var s := Render(p);
    forall i | 0 <= i < |s| ensures !IsWhite(s[i]) {
      var a := p.lead + Dot(p.dot1);
      var b := a + p.mid + Dot(p.dot2);
      var c := b + p.tail;
      assert s == c + "-" + [p.dv];
      if i < |p.lead| {
        assert s[i] == p.lead[i];
      } else if i < |a| {
        assert s[i] == '.';
      } else if i < |a| + 3 {
        assert s[i] == p.mid[i - |a|];
      } else if i < |b| {
        assert s[i] == '.';
      } else if i < |c| {
        assert s[i] == p.tail[i - |b|];
      } else if i == |c| {
        assert s[i] == '-';
      } else {
        assert s[i] == p.dv;
      }
    }
  }

  /** A RUN the validator accepts is already trimmed and never blank, so storing it changes nothing. */
  lemma RunValidoEsTexto(run: string)
    requires ValidarRun(run)
    ensures IsTrimmedText(run)
  {
    var p: RunParts :| p.WellFormed() && Render(p) == run;
    RenderNoWhite(p);
    NoWhiteIsText(run);
  }

  /** Malformed strings fail before the check character is considered. */
  lemma MalformedVectors()
    ensures !ValidarFormato("")
    ensures !ValidarFormato("123456-5")
    ensures !ValidarFormato("123456785")
    ensures !ValidarRun("123.45678-5")
  {
    assert Parse("123456-5").None? by {
      var b := "123456";
      assert b[..|b| - 3] == "123";
      assert StripDot("123") == ("123", false);
      assert StripDot("") == ("", false);
    }
    assert Parse("123456785").None?;
    MisplacedDotRejected("123.45678-5");
  }

  lemma MisplacedDotRejected(run: string)
    requires run == "123.45678-5"
    ensures !ValidarRun(run)
  {
    var b := run[..|run| - 2];
    assert b == "123.45678";
    assert b[..|b| - 3] == "123.45";
    assert StripDot("123.45") == ("123.45", false);
    var b2 := "123.45";
    assert b2[|b2| - 3..][0] == '.';
    assert !AllDigits(b2[|b2| - 3..]);
    assert Parse(run).None?;
  }
}
