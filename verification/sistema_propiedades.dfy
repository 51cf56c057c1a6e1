/**
 * What the library system promises across calls: the invariants every public operation keeps,
 * the create/delete round trips, the loan-and-return cycle, and the quirks of the sentinel
 * "0", the exact-string keys and the two-step return.
 */
module SistemaPropiedades {
  import opened Text
  import opened Results
  import opened Usuarios
  import Docentes
  import opened Libros
  import opened Prestamos
  import opened ValidadorRun
  import opened ValidadorRunPropiedades
  import opened Sistema

  /** Unique keys, entities as their classes make them, counts in range, well-formed ledger records. */
  predicate Coherente(s: SistemaBiblioteca) {
    ClavesUnicas(s) && EntidadesValidas(s) && LibrosCuadrados(s) && RegistrosCoherentes(s)
  }

  // ---------------------------------------------------------------- lookups under rewrites

  /** Rewriting users without touching their RUNs moves no lookup. */
  lemma IndiceUsuarioMismosRuns(a: seq<Usuario>, b: seq<Usuario>, run: string)
    requires |a| == |b| && forall i | 0 <= i < |a| :: a[i].run == b[i].run
    ensures IndiceUsuario(a, run) == IndiceUsuario(b, run)
  {
  }

  /** Rewriting books without touching their ISBNs moves no lookup. */
  lemma IndiceLibroMismosIsbns(a: seq<Libro>, b: seq<Libro>, isbn: string)
    requires |a| == |b| && forall i | 0 <= i < |a| :: a[i].isbn == b[i].isbn
    ensures IndiceLibro(a, isbn) == IndiceLibro(b, isbn)
  {
  }

  /** A record appended for a pair that had none is the one the return finds. */
  lemma IndicePrestamoAlFinal(prestamos: seq<Prestamo>, p: Prestamo)
    requires IndicePrestamo(prestamos, p.isbn, p.run).None?
    ensures IndicePrestamo(prestamos + [p], p.isbn, p.run) == Some(|prestamos|)
  {
    assert (prestamos + [p])[|prestamos|] == p;
    assert forall j | 0 <= j < |prestamos| :: (prestamos + [p])[j] == prestamos[j];
  }

  // ---------------------------------------------------------------- invariants

  /** Replacing one user by another with the same RUN keeps the user list's invariants. */
  lemma ReemplazarUsuario(usuarios: seq<Usuario>, i: nat, u: Usuario)
    requires i < |usuarios| && u.run == usuarios[i].run
    ensures RunsUnicos(usuarios) ==> RunsUnicos(usuarios[i := u])
    ensures UsuariosValidos(usuarios) && Valido(u) ==> UsuariosValidos(usuarios[i := u])
  {
  }

  /** Replacing one book by another with the same ISBN keeps the book list's invariants. */
  lemma ReemplazarLibro(libros: seq<Libro>, i: nat, l: Libro)
    requires i < |libros| && l.isbn == libros[i].isbn
    ensures IsbnsUnicos(libros) ==> IsbnsUnicos(libros[i := l])
    ensures IsbnsComoTexto(libros) ==> IsbnsComoTexto(libros[i := l])
    ensures CuentasCuadradas(libros) && CuentasValidas(l) ==> CuentasCuadradas(libros[i := l])
  {
  }

  /** Appending a valid user keeps every user valid. */
  lemma AgregarUsuario(usuarios: seq<Usuario>, u: Usuario)
    requires UsuariosValidos(usuarios) && Valido(u)
    ensures UsuariosValidos(usuarios + [u])
  {
    assert forall j | 0 <= j < |usuarios| :: (usuarios + [u])[j] == usuarios[j];
  }

  /** Overwriting one user with a valid one keeps every user valid, whatever its RUN. */
  lemma CambiarUsuario(usuarios: seq<Usuario>, i: nat, u: Usuario)
    requires i < |usuarios| && UsuariosValidos(usuarios) && Valido(u)
    ensures UsuariosValidos(usuarios[i := u])
  {
    assert forall j | 0 <= j < |usuarios| && j != i :: usuarios[i := u][j] == usuarios[j];
  }

  /** Dropping a user keeps every other user valid. */
  lemma QuitarUsuario(usuarios: seq<Usuario>, i: nat)
    requires i < |usuarios| && UsuariosValidos(usuarios)
    ensures UsuariosValidos(SinPosicion(usuarios, i))
  {
    var r := SinPosicion(usuarios, i);
    forall j | 0 <= j < |r| ensures Valido(r[j]) {
      assert r[j] == usuarios[if j < i then j else j + 1];
    }
  }

  /** Appending a book with trimmed ISBN and counts in range keeps the per-book invariants. */
  lemma AgregarLibro(libros: seq<Libro>, l: Libro)
    requires IsbnsComoTexto(libros) && CuentasCuadradas(libros)
    requires IsTrimmedText(l.isbn) && CuentasValidas(l)
    ensures IsbnsComoTexto(libros + [l]) && CuentasCuadradas(libros + [l])
  {
    assert forall j | 0 <= j < |libros| :: (libros + [l])[j] == libros[j];
  }

  /** Dropping a book keeps the per-book invariants. */
  lemma QuitarLibro(libros: seq<Libro>, i: nat)
    requires i < |libros| && IsbnsComoTexto(libros) && CuentasCuadradas(libros)
    ensures IsbnsComoTexto(SinPosicion(libros, i)) && CuentasCuadradas(SinPosicion(libros, i))
  {
    var r := SinPosicion(libros, i);
    assert forall j | 0 <= j < |r| :: r[j] == libros[if j < i then j else j + 1];
  }

  lemma CrearUsuarioConserva(s: SistemaBiblioteca, usuario: Option<Usuario>)
    requires Coherente(s) && (usuario.Some? ==> Valido(usuario.value))
    ensures Coherente(CrearUsuario(s, usuario).sistema)
  {
    if CrearUsuario(s, usuario).resultado {
      AgregarUsuario(s.usuarios, usuario.value);
    }
  }

  lemma EliminarUsuarioConserva(s: SistemaBiblioteca, run: string)
    requires Coherente(s)
    ensures Coherente(EliminarUsuario(s, run).sistema)
  {
    if EliminarUsuario(s, run).resultado {
      QuitarUsuario(s.usuarios, IndiceUsuario(s.usuarios, run).value);
    }
  }

  lemma CrearLibroConserva(s: SistemaBiblioteca, libro: Option<Libro>)
    requires Coherente(s) && (libro.Some? ==> IsTrimmedText(libro.value.isbn) && CuentasValidas(libro.value))
    ensures Coherente(CrearLibro(s, libro).sistema)
  {
    if CrearLibro(s, libro).resultado {
      AgregarLibro(s.libros, libro.value);
    }
  }

  lemma EliminarLibroConserva(s: SistemaBiblioteca, isbn: string)
    requires Coherente(s)
    ensures Coherente(EliminarLibro(s, isbn).sistema)
  {
    if EliminarLibro(s, isbn).resultado {
      QuitarLibro(s.libros, IndiceLibro(s.libros, isbn).value);
    }
  }

  lemma EditarConserva(s: SistemaBiblioteca, runActual: string, datos: Option<Usuario>)
    requires Coherente(s) && (datos.Some? ==> Valido(datos.value))
    ensures Coherente(EditarUsuario(s, runActual, datos).sistema)
  {
    var r := EditarUsuario(s, runActual, datos);
    if r.resultado != NoEditado {
      var i := IndiceUsuario(s.usuarios, runActual).value;
      var u := CopiarDatos(s.usuarios[i], datos.value).0;
      assert r.sistema.usuarios == s.usuarios[i := u];
      assert Valido(u);
      CambiarUsuario(s.usuarios, i, u);
    }
  }

  lemma PrestamoConserva(s: SistemaBiblioteca, isbn: string, run: string, dias: int, hoy: int)
    requires Coherente(s)
    ensures Coherente(RealizarPrestamo(s, isbn, run, dias, hoy).sistema)
  {
    if PrestamoAdmitido(s, isbn, run, dias) {
      PrestamoConservaListas(s, isbn, run, dias, hoy);
      PrestamoConservaRegistros(s, isbn, run, dias, hoy);
    }
  }

  lemma PrestamoConservaListas(s: SistemaBiblioteca, isbn: string, run: string, dias: int, hoy: int)
    requires PrestamoAdmitido(s, isbn, run, dias)
    requires ClavesUnicas(s) && EntidadesValidas(s) && LibrosCuadrados(s)
    ensures ClavesUnicas(RealizarPrestamo(s, isbn, run, dias, hoy).sistema)
    ensures EntidadesValidas(RealizarPrestamo(s, isbn, run, dias, hoy).sistema)
    ensures LibrosCuadrados(RealizarPrestamo(s, isbn, run, dias, hoy).sistema)
  {
    var t := RealizarPrestamo(s, isbn, run, dias, hoy).sistema;
    var ui := IndiceUsuario(s.usuarios, run).value;
    var li := IndiceLibro(s.libros, isbn).value;
    var u := SetPrestamo(s.usuarios[ui], isbn);
    var l := Prestar(s.libros[li]).value;
    assert t.usuarios == s.usuarios[ui := u];
    assert t.libros == s.libros[li := l];
    SetPrestamoConservaValido(s.usuarios[ui], isbn);
    ReemplazarUsuario(s.usuarios, ui, u);
    ReemplazarLibro(s.libros, li, l);
  }

  /** Appending a well-formed record keeps the ledger well-formed. */
  lemma AgregarRegistro(s: SistemaBiblioteca, p: Prestamo)
    requires RegistrosCoherentes(s) && RegistroBienFormado(p)
    ensures RegistrosCoherentes(s.(prestamos := s.prestamos + [p]))
  {
    var ps := s.prestamos + [p];
    forall i | 0 <= i < |ps| ensures RegistroBienFormado(ps[i]) {
      if i < |s.prestamos| {
        assert ps[i] == s.prestamos[i];
      }
    }
  }

  lemma PrestamoConservaRegistros(s: SistemaBiblioteca, isbn: string, run: string, dias: int, hoy: int)
    requires RegistrosCoherentes(s)
    ensures RegistrosCoherentes(RealizarPrestamo(s, isbn, run, dias, hoy).sistema)
  {
    var r := RealizarPrestamo(s, isbn, run, dias, hoy);
    if r.resultado.Success? {
      AgregarRegistro(s, r.resultado.value);
      assert r.sistema.prestamos == s.prestamos + [r.resultado.value];
    }
  }

  lemma DevolucionConserva(s: SistemaBiblioteca, isbn: string, run: string, hoy: int)
    requires Coherente(s)
    ensures Coherente(RealizarDevolucion(s, isbn, run, hoy).sistema)
  {
    var r := RealizarDevolucion(s, isbn, run, hoy);
    if DevolucionAdmitida(s, isbn, run) {
      var ui := IndiceUsuario(s.usuarios, run).value;
      var li := IndiceLibro(s.libros, isbn).value;
      SetPrestamoConservaValido(s.usuarios[ui], SinPrestamo);
      ReemplazarUsuario(s.usuarios, ui, SetPrestamo(s.usuarios[ui], SinPrestamo));
      if r.resultado.Success? {
        var l := Devolver(s.libros[li]).value;
        assert r.sistema.libros == s.libros[li := l];
        ReemplazarLibro(s.libros, li, l);
      }
    }
  }

  /** One public call of `SistemaBiblioteca`, with the arguments the caller supplies. */
  datatype Operacion =
    | AltaUsuario(usuario: Option<Usuario>)
    | EdicionUsuario(runActual: string, datos: Option<Usuario>)
    | BajaUsuario(run: string)
    | AltaLibro(libro: Option<Libro>)
    | BajaLibro(isbn: string)
    | SolicitudPrestamo(isbn: string, run: string, dias: int, hoy: int)
    | Devolucion(isbn: string, run: string, hoy: int)

  /**
   * The objects a caller can hand in: users as their constructors and setters leave them, and
   * books whose counts no setter has pushed out of range.
   */
  predicate OperacionValida(op: Operacion) {
    match op
    case AltaUsuario(u) => u.Some? ==> Valido(u.value)
    case EdicionUsuario(_, d) => d.Some? ==> Valido(d.value)
    case AltaLibro(l) => l.Some? ==> IsTrimmedText(l.value.isbn) && CuentasValidas(l.value)
    case _ => true
  }

  /** The state after one call: the ledger only ever grows, by at most the one record a loan adds. */
  function Ejecutar(s: SistemaBiblioteca, op: Operacion): (t: SistemaBiblioteca)
    ensures s.prestamos <= t.prestamos && |t.prestamos| <= |s.prestamos| + 1
  {
    match op
    case AltaUsuario(u) => CrearUsuario(s, u).sistema
    case EdicionUsuario(runActual, datos) => EditarUsuario(s, runActual, datos).sistema
    case BajaUsuario(run) => EliminarUsuario(s, run).sistema
    case AltaLibro(l) => CrearLibro(s, l).sistema
    case BajaLibro(isbn) => EliminarLibro(s, isbn).sistema
    case SolicitudPrestamo(isbn, run, dias, hoy) => RealizarPrestamo(s, isbn, run, dias, hoy).sistema
    case Devolucion(isbn, run, hoy) => RealizarDevolucion(s, isbn, run, hoy).sistema
  }

  /** Every call whose arguments are as the entity classes make them keeps the system coherent. */
  lemma EjecutarConserva(s: SistemaBiblioteca, op: Operacion)
    requires Coherente(s) && OperacionValida(op)
    ensures Coherente(Ejecutar(s, op))
  {
    match op
    case AltaUsuario(u) => CrearUsuarioConserva(s, u);
    case EdicionUsuario(runActual, datos) => EditarConserva(s, runActual, datos);
    case BajaUsuario(run) => EliminarUsuarioConserva(s, run);
    case AltaLibro(l) => CrearLibroConserva(s, l);
    case BajaLibro(isbn) => EliminarLibroConserva(s, isbn);
    case SolicitudPrestamo(isbn, run, dias, hoy) => PrestamoConserva(s, isbn, run, dias, hoy);
    case Devolucion(isbn, run, hoy) => DevolucionConserva(s, isbn, run, hoy);
  }

  /**
   * The state after a sequence of calls: still coherent, and the ledger it started with is a
   * prefix of the one it ends with, grown by at most one record per call.
   */
  function EjecutarTodas(s: SistemaBiblioteca, ops: seq<Operacion>): (t: SistemaBiblioteca)
    requires forall i | 0 <= i < |ops| :: OperacionValida(ops[i])
    ensures Coherente(s) ==> Coherente(t)
    ensures s.prestamos <= t.prestamos
    ensures |t.prestamos| <= |s.prestamos| + |ops|
    decreases |ops|
  {
    if ops == [] then s
    else
      if Coherente(s) then EjecutarConserva(s, ops[0]); EjecutarTodas(Ejecutar(s, ops[0]), ops[1..])
      else EjecutarTodas(Ejecutar(s, ops[0]), ops[1..])
  }

  /** The system starts empty, and so coherent. */
  lemma VacioCoherente()
    ensures Coherente(Vacio)
  {
  }

  // ---------------------------------------------------------------- round trips

  /** Creating a user with a new RUN and deleting that RUN gives back the state it started from. */
  lemma CrearEliminarUsuario(s: SistemaBiblioteca, u: Usuario)
    requires BuscarUsuarioPorRun(s, u.run).None?
    ensures CrearUsuario(s, Some(u)).resultado
    ensures EliminarUsuario(CrearUsuario(s, Some(u)).sistema, u.run) == Salida(s, true)
  {
    IndiceUsuarioAlFinal(s.usuarios, u);
    assert SinPosicion(s.usuarios + [u], |s.usuarios|) == s.usuarios;
  }

  /** Creating a book with a new ISBN and deleting that ISBN gives back the state it started from. */
  lemma CrearEliminarLibro(s: SistemaBiblioteca, l: Libro)
    requires BuscarLibroPorIsbn(s, l.isbn).None?
    ensures CrearLibro(s, Some(l)).resultado
    ensures EliminarLibro(CrearLibro(s, Some(l)).sistema, l.isbn) == Salida(s, true)
  {
    IndiceLibroAlFinal(s.libros, l);
    assert SinPosicion(s.libros + [l], |s.libros|) == s.libros;
  }

  /** Copying a valid user's own data onto it changes nothing and raises nothing (degrees already normalised). */
  lemma CopiarMismosDatos(u: Usuario)
    requires Valido(u)
    requires u.perfil.Docente? ==> Docentes.NormalizarGrados(u.perfil.grados) == u.perfil.grados
    ensures CopiarDatos(u, u) == (u, None)
  {
    var r := CopiarDatos(u, u);
    assert r.0.perfil == u.perfil;
    assert r.0 == u;
  }

  /** Editing a user with their own data succeeds and changes nothing (degrees already normalised). */
  lemma EditarConLosMismosDatos(s: SistemaBiblioteca, run: string)
    requires ExisteUsuario(s, run) && Valido(UsuarioDe(s, run))
    requires UsuarioDe(s, run).perfil.Docente? ==>
               Docentes.NormalizarGrados(UsuarioDe(s, run).perfil.grados) == UsuarioDe(s, run).perfil.grados
    ensures EditarUsuario(s, run, Some(UsuarioDe(s, run))) == Salida(s, Editado)
  {
    var i := IndiceUsuario(s.usuarios, run).value;
    var u := s.usuarios[i];
    assert UsuarioDe(s, run) == u;
    CopiarMismosDatos(u);
    assert s.usuarios[i := u] == s.usuarios;
  }

  /**
   * Editing a user with valid data writes the copied data onto that user's entry and nowhere
   * else: the copy is found under the new RUN, and every other user stays where it was.
   */
  lemma EditarEscribeCopia(s: SistemaBiblioteca, runActual: string, d: Usuario)
    requires ClavesUnicas(s) && ExisteUsuario(s, runActual) && Valido(d)
    requires runActual == d.run || !ExisteUsuario(s, d.run)
    ensures EditarUsuario(s, runActual, Some(d)).resultado == Editado
    ensures BuscarUsuarioPorRun(EditarUsuario(s, runActual, Some(d)).sistema, d.run) ==
              Some(CopiarDatos(UsuarioDe(s, runActual), d).0)
    ensures forall j | 0 <= j < |s.usuarios| && s.usuarios[j].run != runActual ::
              EditarUsuario(s, runActual, Some(d)).sistema.usuarios[j] == s.usuarios[j]
  {
    var i := IndiceUsuario(s.usuarios, runActual).value;
    var c := CopiarDatos(s.usuarios[i], d).0;
    var t := EditarUsuario(s, runActual, Some(d)).sistema;
    assert t.usuarios == s.usuarios[i := c];
    assert c.run == d.run;
    assert RunsUnicos(t.usuarios);
    assert IndiceUsuario(t.usuarios, d.run) == Some(i);
  }

  // ---------------------------------------------------------------- the loan cycle

  /** The writes of an admitted loan move no lookup: the user and the book stay where they were. */
  lemma MarcarConservaIndices(s: SistemaBiblioteca, isbn: string, run: string)
    requires LibroConEjemplar(s, isbn) && ExisteUsuario(s, run)
    ensures IndiceUsuario(Marcar(s, isbn, run).usuarios, run) == IndiceUsuario(s.usuarios, run)
    ensures IndiceLibro(Marcar(s, isbn, run).libros, isbn) == IndiceLibro(s.libros, isbn)
    ensures UsuarioDe(Marcar(s, isbn, run), run) == SetPrestamo(UsuarioDe(s, run), isbn)
  {
    var t := Marcar(s, isbn, run);
    var ui := IndiceUsuario(s.usuarios, run).value;
    var li := IndiceLibro(s.libros, isbn).value;
    assert t.usuarios == s.usuarios[ui := SetPrestamo(s.usuarios[ui], isbn)];
    IndiceUsuarioMismosRuns(s.usuarios, t.usuarios, run);
    IndiceLibroMismosIsbns(s.libros, t.libros, isbn);
  }

  /** With trimmed keys, an admitted loan for a positive number of days records exactly what was asked. */
  lemma PrestamoAdmitidoRegistra(s: SistemaBiblioteca, isbn: string, run: string, dias: int, hoy: int)
    requires PrestamoAdmitido(s, isbn, run, dias) && dias > 0
    requires IsTrimmedText(isbn) && IsTrimmedText(run)
    ensures RealizarPrestamo(s, isbn, run, dias, hoy)
              == Salida(Marcar(s, isbn, run).(prestamos := s.prestamos + [Prestamo(isbn, run, hoy, dias, hoy + dias)]),
                        Success(Prestamo(isbn, run, hoy, dias, hoy + dias)))
  {
    assert NuevoPrestamo(isbn, run, dias, hoy) == Success(Prestamo(isbn, run, hoy, dias, hoy + dias));
  }

  /**
   * Returning the book just lent undoes the loan's writes: users and books are back as they
   * were and the ledger keeps the new record. The fee is that of the first record for the pair.
   */
  lemma DevolucionDeshaceMarcar(s: SistemaBiblioteca, isbn: string, run: string, p: Prestamo, hoy: int)
    requires LibroConEjemplar(s, isbn) && UsuarioLibre(s, run) && CuentasValidas(LibroDe(s, isbn))
    requires p.isbn == isbn && p.run == run
    ensures IndicePrestamo(s.prestamos + [p], isbn, run).Some?
    ensures RealizarDevolucion(Marcar(s, isbn, run).(prestamos := s.prestamos + [p]), isbn, run, hoy)
              == Salida(s.(prestamos := s.prestamos + [p]),
                        Success(CalcularMulta((s.prestamos + [p])[IndicePrestamo(s.prestamos + [p], isbn, run).value], Some(hoy), hoy)))
  {
    var t := Marcar(s, isbn, run).(prestamos := s.prestamos + [p]);
    var ui := IndiceUsuario(s.usuarios, run).value;
    var li := IndiceLibro(s.libros, isbn).value;
    var u := s.usuarios[ui];
    var l := s.libros[li];
    MarcarConservaIndices(s, isbn, run);
    assert t.prestamos[|s.prestamos|] == p;
    assert t.usuarios == s.usuarios[ui := SetPrestamo(u, isbn)];
    assert t.libros == s.libros[li := Prestar(l).value];
    assert DevolucionAdmitida(t, isbn, run);
    assert SetPrestamo(SetPrestamo(u, isbn), SinPrestamo) == u;
    assert t.usuarios[ui := u] == s.usuarios;
    assert Devolver(Prestar(l).value) == Success(l);
    assert t.libros[li := l] == s.libros;
  }

  /**
   * A free user borrowing an available book for an allowed number of days, then returning it,
   * gets the record dated today and the fee that record calls for; afterwards users and books
   * are exactly as before and the ledger has grown by that one record.
   */
  lemma PrestarYDevolver(s: SistemaBiblioteca, isbn: string, run: string, dias: int, hoy: int, hoyDevolucion: int)
    requires Coherente(s)
    requires PrestamoAdmitido(s, isbn, run, dias) && dias > 0
    requires IndicePrestamo(s.prestamos, isbn, run).None?
    ensures RealizarPrestamo(s, isbn, run, dias, hoy).resultado == Success(Prestamo(isbn, run, hoy, dias, hoy + dias))
    ensures RealizarDevolucion(RealizarPrestamo(s, isbn, run, dias, hoy).sistema, isbn, run, hoyDevolucion)
              == Salida(s.(prestamos := s.prestamos + [Prestamo(isbn, run, hoy, dias, hoy + dias)]),
                        Success(CalcularMulta(Prestamo(isbn, run, hoy, dias, hoy + dias), Some(hoyDevolucion), hoyDevolucion)))
  {
    var ui := IndiceUsuario(s.usuarios, run).value;
    var li := IndiceLibro(s.libros, isbn).value;
    assert Valido(s.usuarios[ui]);
    RunValidoEsTexto(run);
    assert IsTrimmedText(s.libros[li].isbn);
    PrestamoAdmitidoRegistra(s, isbn, run, dias, hoy);
    IndicePrestamoAlFinal(s.prestamos, Prestamo(isbn, run, hoy, dias, hoy + dias));
    DevolucionDeshaceMarcar(s, isbn, run, Prestamo(isbn, run, hoy, dias, hoy + dias), hoyDevolucion);
  }

  /** Holding any book but one whose ISBN is "0" blocks every further loan until it is returned. */
  lemma PrestamoBloqueaUsuario(s: SistemaBiblioteca, isbn: string, run: string, dias: int, hoy: int,
                               otroIsbn: string, otrosDias: int, otroHoy: int)
    requires RealizarPrestamo(s, isbn, run, dias, hoy).resultado.Success?
    requires isbn != SinPrestamo
    ensures !UsuarioLibre(RealizarPrestamo(s, isbn, run, dias, hoy).sistema, run)
    ensures RealizarPrestamo(RealizarPrestamo(s, isbn, run, dias, hoy).sistema, otroIsbn, run, otrosDias, otroHoy).resultado.Failure?
  {
    var t := RealizarPrestamo(s, isbn, run, dias, hoy).sistema;
    assert PrestamoAdmitido(s, isbn, run, dias);
    MarcarConservaIndices(s, isbn, run);
    assert t.usuarios == Marcar(s, isbn, run).usuarios;
  }

  /**
   * A book whose ISBN is the sentinel "0" is lent like any other, but the user's loan field
   * then reads "no loan": they are free to borrow again at once.
   */
  lemma IsbnCeroNoBloquea(s: SistemaBiblioteca, isbn: string, run: string, dias: int, hoy: int)
    requires isbn == SinPrestamo
    requires RealizarPrestamo(s, isbn, run, dias, hoy).resultado.Success?
    ensures UsuarioLibre(RealizarPrestamo(s, isbn, run, dias, hoy).sistema, run)
  {
    var t := RealizarPrestamo(s, isbn, run, dias, hoy).sistema;
    var m := Marcar(s, isbn, run);
    MarcarConservaIndices(s, isbn, run);
    assert t.usuarios == m.usuarios;
    assert UsuarioDe(t, run) == UsuarioDe(m, run);
    assert !TienePrestamo(UsuarioDe(m, run));
  }

  /**
   * RUNs are keys as written: the dotted and the undotted spelling of one RUN pass or fail the
   * validator together, yet register as two different users.
   */
  lemma RunConYSinPuntos(s: SistemaBiblioteca, p: RunParts, u: Usuario, v: Usuario)
    requires p.WellFormed() && p.dot1 && p.dot2
    requires u.run == Render(p) && v.run == Render(p.(dot1 := false, dot2 := false))
    requires BuscarUsuarioPorRun(s, u.run).None? && BuscarUsuarioPorRun(s, v.run).None?
    ensures ValidarRun(u.run) == ValidarRun(v.run)
    ensures CrearUsuario(s, Some(u)).resultado
    ensures CrearUsuario(CrearUsuario(s, Some(u)).sistema, Some(v)).resultado
  {
    DotsIrrelevant(p, false, false);
    assert |u.run| == |v.run| + 2;
  }

  /**
   * The return frees the user before it puts the copy back. When the shelf is already full
   * (the book was deleted and registered again with every copy present) the call fails, yet
   * the user is freed and no copy comes back.
   */
  lemma DevolucionLiberaSinDevolver(s: SistemaBiblioteca, isbn: string, run: string, hoy: int)
    requires DevolucionAdmitida(s, isbn, run)
    requires LibroDe(s, isbn).cantidadDisponible >= LibroDe(s, isbn).cantidadBiblioteca
    ensures RealizarDevolucion(s, isbn, run, hoy).resultado == Failure(LibroAlMaximo)
    ensures UsuarioLibre(RealizarDevolucion(s, isbn, run, hoy).sistema, run)
    ensures RealizarDevolucion(s, isbn, run, hoy).sistema.libros == s.libros
  {
    var t := RealizarDevolucion(s, isbn, run, hoy).sistema;
    IndiceUsuarioMismosRuns(s.usuarios, t.usuarios, run);
  }
}
