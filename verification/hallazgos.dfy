/**
 * Three places where the library code does something its authors evidently did not mean, each
 * shown on the code as written and paired with a corrected definition and the property the
 * correction restores.
 */
module Hallazgos {
  import opened Text
  import opened Results
  import opened Usuarios
  import opened Libros
  import opened Prestamos
  import opened ValidadorRun
  import opened ValidadorRunPropiedades
  import opened Sistema
  import opened SistemaPropiedades
  import Estudiantes

  // ---------------------------------------------------------------- 1. the loan is not atomic

  /**
   * As written: a loan for zero or fewer days passes every check, marks the user and takes a
   * copy off the shelf, and only then does the record's constructor refuse it. The call fails,
   * yet the user now holds the book with no record behind it: they can neither return it (when
   * no older record exists) nor borrow anything else.
   */
  lemma PrestamoNoAtomico(s: SistemaBiblioteca, isbn: string, run: string, dias: int, hoy: int,
                          hoyDevolucion: int, otroIsbn: string, otrosDias: int, otroHoy: int)
    requires PrestamoAdmitido(s, isbn, run, dias) && dias <= 0
    requires !IsBlank(isbn) && !IsBlank(run) && isbn != SinPrestamo
    requires IndicePrestamo(s.prestamos, isbn, run).None?
    ensures RealizarPrestamo(s, isbn, run, dias, hoy).resultado == Failure(RegistroInvalido(DiasNoPositivos))
    ensures RealizarPrestamo(s, isbn, run, dias, hoy).sistema != s
    ensures RealizarPrestamo(s, isbn, run, dias, hoy).sistema.prestamos == s.prestamos
    ensures !UsuarioLibre(RealizarPrestamo(s, isbn, run, dias, hoy).sistema, run)
    ensures RealizarDevolucion(RealizarPrestamo(s, isbn, run, dias, hoy).sistema, isbn, run, hoyDevolucion).resultado
              == Failure(RegistroNoEncontrado)
    ensures RealizarPrestamo(RealizarPrestamo(s, isbn, run, dias, hoy).sistema, otroIsbn, run, otrosDias, otroHoy).resultado.Failure?
  {
    var t := RealizarPrestamo(s, isbn, run, dias, hoy).sistema;
    var m := Marcar(s, isbn, run);
    assert NuevoPrestamo(isbn, run, dias, hoy) == Failure(DiasNoPositivos);
    assert t == m;
    MarcarConservaIndices(s, isbn, run);
    assert UsuarioDe(t, run).prestamo == isbn;
    assert UsuarioDe(s, run).prestamo == SinPrestamo;
    assert !UsuarioLibre(t, run);
    assert ExisteLibro(t, isbn) && TieneLibro(t, run, isbn);
  }

  /**
   * Corrected: the record is built before anything is written, so a duration the record
   * refuses is one more refusal that leaves the system as it was.
   */
  function RealizarPrestamoAtomico(s: SistemaBiblioteca, isbn: string, run: string, dias: int, hoy: int)
    : (r: Salida<Result<Prestamo, Fallo>>)
    ensures r.resultado.Failure? ==> r.sistema == s
    ensures r.resultado == RealizarPrestamo(s, isbn, run, dias, hoy).resultado
    ensures r.resultado.Success? ==> r.sistema == RealizarPrestamo(s, isbn, run, dias, hoy).sistema
  {
    match IndiceLibro(s.libros, isbn)
    case None => Salida(s, Failure(LibroNoExiste))
    case Some(li) =>
      if !HayDisponible(s.libros[li]) then Salida(s, Failure(LibroSinEjemplares))
      else match IndiceUsuario(s.usuarios, run)
        case None => Salida(s, Failure(UsuarioNoExiste))
        case Some(ui) =>
          var usuario := s.usuarios[ui];
          if TienePrestamo(usuario) then Salida(s, Failure(UsuarioConPrestamo))
          else if dias > PeriodoMaximoPrestamo(usuario) then Salida(s, Failure(ExcedePeriodoMaximo))
          else
            assert PrestamoAdmitido(s, isbn, run, dias);
            match NuevoPrestamo(isbn, run, dias, hoy)
            case Failure(e) => Salida(s, Failure(RegistroInvalido(e)))
            case Success(p) => Salida(Marcar(s, isbn, run).(prestamos := s.prestamos + [p]), Success(p))
  }

  /** With the correction, a refused loan never takes a free user's freedom away. */
  lemma PrestamoAtomicoNoBloquea(s: SistemaBiblioteca, isbn: string, run: string, dias: int, hoy: int)
    requires UsuarioLibre(s, run)
    requires RealizarPrestamoAtomico(s, isbn, run, dias, hoy).resultado.Failure?
    ensures UsuarioLibre(RealizarPrestamoAtomico(s, isbn, run, dias, hoy).sistema, run)
    ensures RealizarPrestamoAtomico(s, isbn, run, dias, hoy).sistema.libros == s.libros
  {
  }

  // ---------------------------------------------------------------- 2. the fee of an old loan

  /** The position of the LAST ledger record for the pair, the one a return should close. */
  function IndiceUltimoPrestamo(prestamos: seq<Prestamo>, isbn: string, run: string): (r: Option<nat>)
    ensures r.Some? ==> r.value < |prestamos| && prestamos[r.value].isbn == isbn && prestamos[r.value].run == run
    ensures r.Some? ==> forall j | r.value < j < |prestamos| :: !(prestamos[j].isbn == isbn && prestamos[j].run == run)
    ensures r.None? <==> IndicePrestamo(prestamos, isbn, run).None?
    ensures r.Some? ==> IndicePrestamo(prestamos, isbn, run).value <= r.value
  {
    if prestamos == [] then None
    else
      var k := |prestamos| - 1;
      if prestamos[k].isbn == isbn && prestamos[k].run == run then Some(k)
      else
        var r := IndiceUltimoPrestamo(prestamos[..k], isbn, run);
        IndicePrestamoPrefijoSinUltimo(prestamos, isbn, run);
        r
  }

  /** When the last record is for another pair, the first lookup sees the ledger without it. */
  lemma IndicePrestamoPrefijoSinUltimo(prestamos: seq<Prestamo>, isbn: string, run: string)
    requires prestamos != [] && !(prestamos[|prestamos| - 1].isbn == isbn && prestamos[|prestamos| - 1].run == run)
    ensures IndicePrestamo(prestamos, isbn, run) == IndicePrestamo(prestamos[..|prestamos| - 1], isbn, run)
  {
    var k := |prestamos| - 1;
    assert prestamos == prestamos[..k] + [prestamos[k]];
    if IndicePrestamo(prestamos[..k], isbn, run).Some? {
      IndicePrestamoPrefijo(prestamos[..k], prestamos[k], isbn, run);
    } else {
      assert forall j | 0 <= j < k :: prestamos[..k][j] == prestamos[j];
    }
  }

  /** An earlier record for the pair stays the one the as-written return finds after a new loan. */
  lemma IndicePrestamoPrefijo(prestamos: seq<Prestamo>, p: Prestamo, isbn: string, run: string)
    requires IndicePrestamo(prestamos, isbn, run).Some?
    ensures IndicePrestamo(prestamos + [p], isbn, run) == IndicePrestamo(prestamos, isbn, run)
  {
    assert forall j | 0 <= j < |prestamos| :: (prestamos + [p])[j] == prestamos[j];
  }

  /**
   * As written: records are never removed, and the return charges the fee of the FIRST record
   * for the book and user. After a second loan of the same book, the fee is computed from the
   * first loan's due date.
   */
  lemma DevolucionCobraRegistroAntiguo(s: SistemaBiblioteca, isbn: string, run: string, dias: int, hoy: int,
                                       hoyDevolucion: int)
    requires PrestamoAdmitido(s, isbn, run, dias) && dias > 0 && CuentasValidas(LibroDe(s, isbn))
    requires IsTrimmedText(isbn) && IsTrimmedText(run)
    requires IndicePrestamo(s.prestamos, isbn, run).Some?
    ensures RealizarDevolucion(RealizarPrestamo(s, isbn, run, dias, hoy).sistema, isbn, run, hoyDevolucion).resultado
              == Success(CalcularMulta(s.prestamos[IndicePrestamo(s.prestamos, isbn, run).value], Some(hoyDevolucion), hoyDevolucion))
  {
    var p := Prestamo(isbn, run, hoy, dias, hoy + dias);
    PrestamoAdmitidoRegistra(s, isbn, run, dias, hoy);
    IndicePrestamoPrefijo(s.prestamos, p, isbn, run);
    DevolucionDeshaceMarcar(s, isbn, run, p, hoyDevolucion);
  }

  /**
   * Corrected: the return closes the latest record for the pair. Everything else, verdicts and
   * writes included, is as in the code.
   */
  function RealizarDevolucionUltimo(s: SistemaBiblioteca, isbn: string, run: string, hoy: int)
    : (r: Salida<Result<int, Fallo>>)
    ensures r.sistema == RealizarDevolucion(s, isbn, run, hoy).sistema
    ensures r.resultado.Success? <==> RealizarDevolucion(s, isbn, run, hoy).resultado.Success?
    ensures r.resultado.Failure? ==> r.resultado == RealizarDevolucion(s, isbn, run, hoy).resultado
    ensures r.resultado.Success? ==> IndiceUltimoPrestamo(s.prestamos, isbn, run).Some?
    ensures r.resultado.Success? ==>
              r.resultado.value == CalcularMulta(s.prestamos[IndiceUltimoPrestamo(s.prestamos, isbn, run).value], Some(hoy), hoy)
  {
    match IndiceLibro(s.libros, isbn)
    case None => Salida(s, Failure(LibroNoExiste))
    case Some(li) =>
      match IndiceUsuario(s.usuarios, run)
      case None => Salida(s, Failure(UsuarioNoExiste))
      case Some(ui) =>
        var usuario := s.usuarios[ui];
        if usuario.prestamo != isbn then Salida(s, Failure(NoTieneEsteLibro))
        else match IndiceUltimoPrestamo(s.prestamos, isbn, run)
          case None => Salida(s, Failure(RegistroNoEncontrado))
          case Some(pi) =>
            var multa := CalcularMulta(s.prestamos[pi], Some(hoy), hoy);
            var t := s.(usuarios := s.usuarios[ui := SetPrestamo(usuario, SinPrestamo)]);
            match Devolver(s.libros[li])
            case Failure(_) => Salida(t, Failure(LibroAlMaximo))
            case Success(libro) => Salida(t.(libros := s.libros[li := libro]), Success(multa))
  }

  /** With the correction, returning a book charges the fee of the loan being returned, whatever came before. */
  lemma DevolucionUltimoCobraPrestamoActual(s: SistemaBiblioteca, isbn: string, run: string, dias: int, hoy: int,
                                            hoyDevolucion: int)
    requires PrestamoAdmitido(s, isbn, run, dias) && dias > 0 && CuentasValidas(LibroDe(s, isbn))
    requires IsTrimmedText(isbn) && IsTrimmedText(run)
    ensures RealizarDevolucionUltimo(RealizarPrestamo(s, isbn, run, dias, hoy).sistema, isbn, run, hoyDevolucion)
              == Salida(s.(prestamos := s.prestamos + [Prestamo(isbn, run, hoy, dias, hoy + dias)]),
                        Success(CalcularMulta(Prestamo(isbn, run, hoy, dias, hoy + dias), Some(hoyDevolucion), hoyDevolucion)))
  {
    var p := Prestamo(isbn, run, hoy, dias, hoy + dias);
    PrestamoAdmitidoRegistra(s, isbn, run, dias, hoy);
    DevolucionDeshaceMarcar(s, isbn, run, p, hoyDevolucion);
    assert IndiceUltimoPrestamo(s.prestamos + [p], isbn, run) == Some(|s.prestamos|);
  }

  /**
   * The two returns on one history: a first loan due on day 5, a second one on day 100 for ten
   * days, returned on day 105. The code charges 100 days late; the correction charges nothing.
   */
  lemma RegistroAntiguoEjemplo(s: SistemaBiblioteca, isbn: string, run: string)
    requires PrestamoAdmitido(s, isbn, run, 10) && CuentasValidas(LibroDe(s, isbn))
    requires IsTrimmedText(isbn) && IsTrimmedText(run)
    requires s.prestamos == [Prestamo(isbn, run, 0, 5, 5)]
    ensures RealizarDevolucion(RealizarPrestamo(s, isbn, run, 10, 100).sistema, isbn, run, 105).resultado == Success(100000)
    ensures RealizarDevolucionUltimo(RealizarPrestamo(s, isbn, run, 10, 100).sistema, isbn, run, 105).resultado == Success(0)
  {
    assert s.prestamos[0].isbn == isbn && s.prestamos[0].run == run;
    DevolucionCobraRegistroAntiguo(s, isbn, run, 10, 100, 105);
    DevolucionUltimoCobraPrestamoActual(s, isbn, run, 10, 100, 105);
  }

  // ---------------------------------------------------------------- 3. the demonstration RUNs

  /**
   * As written: two of the demonstration students carry RUNs whose check character is wrong,
   * so the constructor refuses them whatever their name, gender and programme.
   */
  lemma EstudiantesDemoRechazados(nombre: string, genero: char, carrera: string)
    requires !IsBlank(nombre)
    ensures Estudiantes.NuevoEstudiante(nombre, "19876543-2", genero, carrera) == Failure(DigitoVerificadorInvalido)
    ensures Estudiantes.NuevoEstudiante(nombre, "20123456-K", genero, carrera) == Failure(DigitoVerificadorInvalido)
  {
    RejectedVector("19876543-2");
    RejectedKVector("20123456-K");
  }

  /** Corrected: with the check characters their bodies call for, the same students are created. */
  lemma EstudiantesDemoCorregidos(nombre: string, genero: char, carrera: string)
    requires !IsBlank(nombre) && GeneroValido(genero) && !IsBlank(carrera)
    ensures Estudiantes.NuevoEstudiante(nombre, "19876543-0", genero, carrera).Success?
    ensures Estudiantes.NuevoEstudiante(nombre, "20123456-5", genero, carrera).Success?
  {
    CorrectedVector("19876543-0");
    CorrectedKVector("20123456-5");
  }
}
