/**
 * The library system: users, books and the append-only loan ledger, with key-checked CRUD,
 * loans and returns. Each operation maps a state to the next state and the caller's result.
 */
module Sistema {
  import opened Text
  import opened Results
  import opened Usuarios
  import Docentes
  import Estudiantes
  import opened Libros
  import opened Prestamos

  /** The three lists of `SistemaBiblioteca`, in insertion order. */
  datatype SistemaBiblioteca = SistemaBiblioteca(usuarios: seq<Usuario>, libros: seq<Libro>, prestamos: seq<Prestamo>)

  /** A new state together with what the call hands back. */
  datatype Salida<T> = Salida(sistema: SistemaBiblioteca, resultado: T)

  /** Why a loan or a return was refused; the source prints these and returns null or -1. */
  datatype Fallo =
    | LibroNoExiste
    | LibroSinEjemplares
    | UsuarioNoExiste
    | UsuarioConPrestamo
    | ExcedePeriodoMaximo
    | RegistroInvalido(error: PrestamoError)
    | NoTieneEsteLibro
    | RegistroNoEncontrado
    | LibroAlMaximo

  /** The outcome of `editarUsuario`: true, false, or an exception from one of the setters. */
  datatype Edicion = Editado | NoEditado | EdicionFallida(error: UsuarioError)

  const Vacio := SistemaBiblioteca([], [], [])

  // ---------------------------------------------------------------- lookups

  /** The position of the first user whose RUN is exactly `run` (no normalisation). */
  function IndiceUsuario(usuarios: seq<Usuario>, run: string): (r: Option<nat>)
    ensures r.Some? ==> r.value < |usuarios| && usuarios[r.value].run == run
    ensures r.Some? ==> forall j | 0 <= j < r.value :: usuarios[j].run != run
    ensures r.None? ==> forall j | 0 <= j < |usuarios| :: usuarios[j].run != run
  {
    if usuarios == [] then None
    else if usuarios[0].run == run then Some(0)
    else match IndiceUsuario(usuarios[1..], run)
      case None => None
      case Some(i) => Some(i + 1)
  }

  /** The position of the first book whose ISBN is exactly `isbn`. */
  function IndiceLibro(libros: seq<Libro>, isbn: string): (r: Option<nat>)
    ensures r.Some? ==> r.value < |libros| && libros[r.value].isbn == isbn
    ensures r.Some? ==> forall j | 0 <= j < r.value :: libros[j].isbn != isbn
    ensures r.None? ==> forall j | 0 <= j < |libros| :: libros[j].isbn != isbn
  {
    if libros == [] then None
    else if libros[0].isbn == isbn then Some(0)
    else match IndiceLibro(libros[1..], isbn)
      case None => None
      case Some(i) => Some(i + 1)
  }

  /** The position of the first (oldest) ledger record for this book and this user. */
  function IndicePrestamo(prestamos: seq<Prestamo>, isbn: string, run: string): (r: Option<nat>)
    ensures r.Some? ==> r.value < |prestamos| && prestamos[r.value].isbn == isbn && prestamos[r.value].run == run
    ensures r.Some? ==> forall j | 0 <= j < r.value :: !(prestamos[j].isbn == isbn && prestamos[j].run == run)
    ensures r.None? ==> forall j | 0 <= j < |prestamos| :: !(prestamos[j].isbn == isbn && prestamos[j].run == run)
  {
    if prestamos == [] then None
    else if prestamos[0].isbn == isbn && prestamos[0].run == run then Some(0)
    else match IndicePrestamo(prestamos[1..], isbn, run)
      case None => None
      case Some(i) => Some(i + 1)
  }

  /** An appended user whose RUN was absent is found at the end. */
  lemma IndiceUsuarioAlFinal(usuarios: seq<Usuario>, u: Usuario)
    requires IndiceUsuario(usuarios, u.run).None?
    ensures IndiceUsuario(usuarios + [u], u.run) == Some(|usuarios|)
  {
    assert (usuarios + [u])[|usuarios|].run == u.run;
    assert forall j | 0 <= j < |usuarios| :: (usuarios + [u])[j] == usuarios[j];
  }

  /** An appended book whose ISBN was absent is found at the end. */
  lemma IndiceLibroAlFinal(libros: seq<Libro>, l: Libro)
    requires IndiceLibro(libros, l.isbn).None?
    ensures IndiceLibro(libros + [l], l.isbn) == Some(|libros|)
  {
    assert (libros + [l])[|libros|].isbn == l.isbn;
    assert forall j | 0 <= j < |libros| :: (libros + [l])[j] == libros[j];
  }

  /** `buscarUsuarioPorRUN`. */
  function BuscarUsuarioPorRun(s: SistemaBiblioteca, run: string): (r: Option<Usuario>)
    ensures r.Some? ==> r.value in s.usuarios && r.value.run == run
    ensures r.None? <==> forall u | u in s.usuarios :: u.run != run
  {
    match IndiceUsuario(s.usuarios, run)
    case None => None
    case Some(i) => Some(s.usuarios[i])
  }

  /** `buscarLibroPorISBN`. */
  function BuscarLibroPorIsbn(s: SistemaBiblioteca, isbn: string): (r: Option<Libro>)
    ensures r.Some? ==> r.value in s.libros && r.value.isbn == isbn
    ensures r.None? <==> forall l | l in s.libros :: l.isbn != isbn
  {
    match IndiceLibro(s.libros, isbn)
    case None => None
    case Some(i) => Some(s.libros[i])
  }

  /** `buscarPrestamo`: the oldest record for the pair, as the return also uses. */
  function BuscarPrestamo(s: SistemaBiblioteca, isbn: string, run: string): (r: Option<Prestamo>)
    ensures r.Some? ==> r.value in s.prestamos && r.value.isbn == isbn && r.value.run == run
    ensures r.None? <==> forall p | p in s.prestamos :: !(p.isbn == isbn && p.run == run)
  {
    match IndicePrestamo(s.prestamos, isbn, run)
    case None => None
    case Some(i) => Some(s.prestamos[i])
  }

  /** `listarUsuarios`, `listarLibros`, `listarPrestamos`: copies in insertion order, which a value already is. */
  function ListarUsuarios(s: SistemaBiblioteca): (r: seq<Usuario>)
    ensures |r| == |s.usuarios| && forall i | 0 <= i < |r| :: r[i] == s.usuarios[i]
  {
    s.usuarios
  }

  function ListarLibros(s: SistemaBiblioteca): (r: seq<Libro>)
    ensures |r| == |s.libros| && forall i | 0 <= i < |r| :: r[i] == s.libros[i]
  {
    s.libros
  }

  function ListarPrestamos(s: SistemaBiblioteca): (r: seq<Prestamo>)
    ensures |r| == |s.prestamos| && forall i | 0 <= i < |r| :: r[i] == s.prestamos[i]
  {
    s.prestamos
  }

  // ---------------------------------------------------------------- invariants

  predicate RunsUnicos(usuarios: seq<Usuario>) {
    forall i, j | 0 <= i < j < |usuarios| :: usuarios[i].run != usuarios[j].run
  }

  predicate IsbnsUnicos(libros: seq<Libro>) {
    forall i, j | 0 <= i < j < |libros| :: libros[i].isbn != libros[j].isbn
  }

  /** No two users share a RUN and no two books share an ISBN. */
  predicate ClavesUnicas(s: SistemaBiblioteca) {
    RunsUnicos(s.usuarios) && IsbnsUnicos(s.libros)
  }

  /** Every user is as the `Usuario` constructors and setters leave it. */
  predicate UsuariosValidos(usuarios: seq<Usuario>) {
    forall i {:trigger Valido(usuarios[i])} | 0 <= i < |usuarios| :: Valido(usuarios[i])
  }

  /** Every ISBN is stored trimmed and non-blank, as the `Libro` constructor and setter leave it. */
  predicate IsbnsComoTexto(libros: seq<Libro>) {
    forall i | 0 <= i < |libros| :: IsTrimmedText(libros[i].isbn)
  }

  /** Every book's counts satisfy `0 <= available <= total`. */
  predicate CuentasCuadradas(libros: seq<Libro>) {
    forall i | 0 <= i < |libros| :: CuentasValidas(libros[i])
  }

  /** What the entity classes guarantee of every object they hand out: valid users, trimmed ISBNs. */
  predicate EntidadesValidas(s: SistemaBiblioteca) {
    UsuariosValidos(s.usuarios) && IsbnsComoTexto(s.libros)
  }

  predicate LibrosCuadrados(s: SistemaBiblioteca) {
    CuentasCuadradas(s.libros)
  }

  /** A record the `Prestamo` constructor can build: a positive duration and the due date it implies. */
  predicate RegistroBienFormado(p: Prestamo) {
    p.diasPrestados > 0 && p.fechaDevolucion == p.fechaPrestamo + p.diasPrestados
  }

  /** Every ledger record is well-formed. */
  predicate RegistrosCoherentes(s: SistemaBiblioteca) {
    forall i | 0 <= i < |s.prestamos| :: RegistroBienFormado(s.prestamos[i])
  }

  // ---------------------------------------------------------------- users

  /** `crearUsuario`: refuses null and a RUN already present; otherwise appends the user. */
  function CrearUsuario(s: SistemaBiblioteca, usuario: Option<Usuario>): (r: Salida<bool>)
    ensures r.resultado <==> usuario.Some? && BuscarUsuarioPorRun(s, usuario.value.run).None?
    ensures r.resultado ==> r.sistema == s.(usuarios := s.usuarios + [usuario.value])
    ensures !r.resultado ==> r.sistema == s
    ensures ClavesUnicas(s) ==> ClavesUnicas(r.sistema)
    ensures r.resultado ==> BuscarUsuarioPorRun(r.sistema, usuario.value.run) == usuario
  {
    if usuario.None? then Salida(s, false)
    else if IndiceUsuario(s.usuarios, usuario.value.run).Some? then Salida(s, false)
    else
      var t := s.(usuarios := s.usuarios + [usuario.value]);
      IndiceUsuarioAlFinal(s.usuarios, usuario.value);
      Salida(t, true)
  }

  /** The user list without position `i`. */
  function SinPosicion<T>(xs: seq<T>, i: nat): (r: seq<T>)
    requires i < |xs|
    ensures |r| == |xs| - 1
    ensures forall j | 0 <= j < i :: r[j] == xs[j]
    ensures forall j | i <= j < |r| :: r[j] == xs[j + 1]
  {
    xs[..i] + xs[i + 1..]
  }

  /** `eliminarUsuario`: refuses an absent RUN; otherwise removes exactly that user. */
  function EliminarUsuario(s: SistemaBiblioteca, run: string): (r: Salida<bool>)
    ensures r.resultado <==> BuscarUsuarioPorRun(s, run).Some?
    ensures !r.resultado ==> r.sistema == s
    ensures r.resultado ==> r.sistema == s.(usuarios := SinPosicion(s.usuarios, IndiceUsuario(s.usuarios, run).value))
    ensures r.sistema.libros == s.libros && r.sistema.prestamos == s.prestamos
    ensures ClavesUnicas(s) ==> ClavesUnicas(r.sistema) && BuscarUsuarioPorRun(r.sistema, run).None?
  {
    match IndiceUsuario(s.usuarios, run)
    case None => Salida(s, false)
    case Some(i) => Salida(s.(usuarios := SinPosicion(s.usuarios, i)), true)
  }

  /**
   * The setter chain of `editarUsuario`: name, RUN, gender, then the subtype fields when both
   * users are of the same kind. A setter that throws stops the chain; earlier ones stay done.
   */
  function CopiarDatos(u: Usuario, datos: Usuario): (r: (Usuario, Option<UsuarioError>))
    ensures r.0.prestamo == u.prestamo
    ensures r.0.run == u.run || r.0.run == datos.run
    ensures r.0.perfil.Docente? == u.perfil.Docente?
    ensures Valido(datos) ==> r.1.None?
    ensures Valido(datos) ==> r.0.nombreCompleto == datos.nombreCompleto && r.0.run == datos.run
    ensures Valido(datos) ==> r.0.genero == datos.genero
    ensures Valido(datos) && u.perfil.Docente? && datos.perfil.Docente? ==>
              r.0.perfil == Docente(datos.perfil.profesion, Docentes.NormalizarGrados(datos.perfil.grados))
    ensures Valido(datos) && u.perfil.Estudiante? && datos.perfil.Estudiante? ==> r.0.perfil == datos.perfil
    ensures u.perfil.Docente? != datos.perfil.Docente? ==> r.0.perfil == u.perfil
    ensures Valido(u) && Valido(datos) ==> Valido(r.0)
  {
    match SetNombreCompleto(u, datos.nombreCompleto)
    case Failure(e) => (u, Some(e))
    case Success(u1) =>
      match SetRun(u1, datos.run)
      case Failure(e) => (u1, Some(e))
      case Success(u2) =>
        match SetGenero(u2, datos.genero)
        case Failure(e) => (u2, Some(e))
        case Success(u3) =>
          if u3.perfil.Docente? && datos.perfil.Docente? then
            match Docentes.SetProfesion(u3, datos.perfil.profesion)
            case Failure(e) => (u3, Some(e))
            case Success(u4) => (Docentes.SetGrados(u4, Some(datos.perfil.grados)), None)
          else if u3.perfil.Estudiante? && datos.perfil.Estudiante? then
            match Estudiantes.SetCarrera(u3, datos.perfil.carrera)
            case Failure(e) => (u3, Some(e))
            case Success(u4) => (u4, None)
          else (u3, None)
  }

  /**
   * `editarUsuario`: refuses an absent current RUN, a null replacement, and a new RUN that
   * another user already has; otherwise copies the fields over, leaving the loan field alone.
   */
  function EditarUsuario(s: SistemaBiblioteca, runActual: string, datos: Option<Usuario>): (r: Salida<Edicion>)
    ensures BuscarUsuarioPorRun(s, runActual).None? || datos.None? ==> r == Salida(s, NoEditado)
    ensures datos.Some? && runActual != datos.value.run && BuscarUsuarioPorRun(s, datos.value.run).Some? ==>
              r == Salida(s, NoEditado)
    ensures r.resultado == NoEditado ==> r.sistema == s
    ensures r.sistema.libros == s.libros && r.sistema.prestamos == s.prestamos
    ensures |r.sistema.usuarios| == |s.usuarios|
    ensures r.resultado != NoEditado ==>
              var i := IndiceUsuario(s.usuarios, runActual).value;
              && r.sistema.usuarios == s.usuarios[i := r.sistema.usuarios[i]]
              && r.sistema.usuarios[i].prestamo == s.usuarios[i].prestamo
    ensures IndiceUsuario(s.usuarios, runActual).Some? && datos.Some? &&
            (runActual == datos.value.run || IndiceUsuario(s.usuarios, datos.value.run).None?) ==>
              var i := IndiceUsuario(s.usuarios, runActual).value;
              var copia := CopiarDatos(s.usuarios[i], datos.value);
              && r.resultado != NoEditado
              && r.sistema.usuarios == s.usuarios[i := copia.0]
              && (r.resultado == Editado <==> copia.1.None?)
              && (copia.1.Some? ==> r.resultado == EdicionFallida(copia.1.value))
    ensures r.resultado != NoEditado && Valido(datos.value) ==>
              r.resultado == Editado && BuscarUsuarioPorRun(r.sistema, datos.value.run).Some?
    ensures ClavesUnicas(s) ==> ClavesUnicas(r.sistema)
  {
    match IndiceUsuario(s.usuarios, runActual)
    case None => Salida(s, NoEditado)
    case Some(i) =>
      if datos.None? then Salida(s, NoEditado)
      else if runActual != datos.value.run && IndiceUsuario(s.usuarios, datos.value.run).Some? then
        Salida(s, NoEditado)
      else
        var (u, error) := CopiarDatos(s.usuarios[i], datos.value);
        var t := s.(usuarios := s.usuarios[i := u]);
        assert ClavesUnicas(s) ==> RunsUnicos(t.usuarios) by {
          if ClavesUnicas(s) {
            forall a, b | 0 <= a < b < |t.usuarios| ensures t.usuarios[a].run != t.usuarios[b].run {
              if a != i && b != i {
                assert t.usuarios[a] == s.usuarios[a] && t.usuarios[b] == s.usuarios[b];
              }
            }
          }
        }
        assert Valido(datos.value) ==> t.usuarios[i].run == datos.value.run;
        Salida(t, if error.None? then Editado else EdicionFallida(error.value))
  }

  // ---------------------------------------------------------------- books

  /** `crearLibro`: refuses null and an ISBN already present; otherwise appends the book. */
  function CrearLibro(s: SistemaBiblioteca, libro: Option<Libro>): (r: Salida<bool>)
    ensures r.resultado <==> libro.Some? && BuscarLibroPorIsbn(s, libro.value.isbn).None?
    ensures r.resultado ==> r.sistema == s.(libros := s.libros + [libro.value])
    ensures !r.resultado ==> r.sistema == s
    ensures ClavesUnicas(s) ==> ClavesUnicas(r.sistema)
    ensures r.resultado ==> BuscarLibroPorIsbn(r.sistema, libro.value.isbn) == libro
  {
    if libro.None? then Salida(s, false)
    else if IndiceLibro(s.libros, libro.value.isbn).Some? then Salida(s, false)
    else
      var t := s.(libros := s.libros + [libro.value]);
      IndiceLibroAlFinal(s.libros, libro.value);
      Salida(t, true)
  }

  /** `eliminarLibro`: refuses an absent ISBN; otherwise removes exactly that book. */
  function EliminarLibro(s: SistemaBiblioteca, isbn: string): (r: Salida<bool>)
    ensures r.resultado <==> BuscarLibroPorIsbn(s, isbn).Some?
    ensures !r.resultado ==> r.sistema == s
    ensures r.resultado ==> r.sistema == s.(libros := SinPosicion(s.libros, IndiceLibro(s.libros, isbn).value))
    ensures r.sistema.usuarios == s.usuarios && r.sistema.prestamos == s.prestamos
    ensures ClavesUnicas(s) ==> ClavesUnicas(r.sistema) && BuscarLibroPorIsbn(r.sistema, isbn).None?
  {
    match IndiceLibro(s.libros, isbn)
    case None => Salida(s, false)
    case Some(i) => Salida(s.(libros := SinPosicion(s.libros, i)), true)
  }

  // ---------------------------------------------------------------- loans

  predicate ExisteLibro(s: SistemaBiblioteca, isbn: string) {
    IndiceLibro(s.libros, isbn).Some?
  }

  predicate ExisteUsuario(s: SistemaBiblioteca, run: string) {
    IndiceUsuario(s.usuarios, run).Some?
  }

  /** The book `buscarLibroPorISBN` finds. */
  function LibroDe(s: SistemaBiblioteca, isbn: string): Libro
    requires ExisteLibro(s, isbn)
  {
    s.libros[IndiceLibro(s.libros, isbn).value]
  }

  /** The user `buscarUsuarioPorRUN` finds. */
  function UsuarioDe(s: SistemaBiblioteca, run: string): Usuario
    requires ExisteUsuario(s, run)
  {
    s.usuarios[IndiceUsuario(s.usuarios, run).value]
  }

  /** The book is registered and has a copy on the shelf. */
  predicate LibroConEjemplar(s: SistemaBiblioteca, isbn: string) {
    ExisteLibro(s, isbn) && HayDisponible(LibroDe(s, isbn))
  }

  /** The user is registered and holds nothing. */
  predicate UsuarioLibre(s: SistemaBiblioteca, run: string) {
    ExisteUsuario(s, run) && !TienePrestamo(UsuarioDe(s, run))
  }

  /** The user is registered and their loan field names this ISBN. */
  predicate TieneLibro(s: SistemaBiblioteca, run: string, isbn: string) {
    ExisteUsuario(s, run) && UsuarioDe(s, run).prestamo == isbn
  }

  /** All five checks of `realizarPrestamo` pass. */
  predicate PrestamoAdmitido(s: SistemaBiblioteca, isbn: string, run: string, dias: int) {
    LibroConEjemplar(s, isbn) && UsuarioLibre(s, run) && dias <= PeriodoMaximoPrestamo(UsuarioDe(s, run))
  }

  /** All four checks of `realizarDevolucion` pass. */
  predicate DevolucionAdmitida(s: SistemaBiblioteca, isbn: string, run: string) {
    ExisteLibro(s, isbn) && TieneLibro(s, run, isbn) && IndicePrestamo(s.prestamos, isbn, run).Some?
  }

  /**
   * The two writes `realizarPrestamo` makes before it builds the record: the user now holds
   * `isbn` and the book has one copy fewer on the shelf.
   */
  function Marcar(s: SistemaBiblioteca, isbn: string, run: string): (t: SistemaBiblioteca)
    requires LibroConEjemplar(s, isbn) && ExisteUsuario(s, run)
  {
    var ui := IndiceUsuario(s.usuarios, run).value;
    var li := IndiceLibro(s.libros, isbn).value;
    var libro := Prestar(s.libros[li]).value;
    s.(usuarios := s.usuarios[ui := SetPrestamo(s.usuarios[ui], isbn)], libros := s.libros[li := libro])
  }

  /**
   * `realizarPrestamo`, with the five checks in the source's order; each refusal leaves the
   * state as it was. Once they pass, the user and the book are written first and the record is
   * built last, so a record the constructor refuses (a duration of zero or less) leaves those
   * writes in place and no record.
   */
  function RealizarPrestamo(s: SistemaBiblioteca, isbn: string, run: string, dias: int, hoy: int)
    : (r: Salida<Result<Prestamo, Fallo>>)
    ensures !ExisteLibro(s, isbn) ==> r == Salida(s, Failure(LibroNoExiste))
    ensures ExisteLibro(s, isbn) && !LibroConEjemplar(s, isbn) ==> r == Salida(s, Failure(LibroSinEjemplares))
    ensures LibroConEjemplar(s, isbn) && !ExisteUsuario(s, run) ==> r == Salida(s, Failure(UsuarioNoExiste))
    ensures LibroConEjemplar(s, isbn) && ExisteUsuario(s, run) && !UsuarioLibre(s, run) ==>
              r == Salida(s, Failure(UsuarioConPrestamo))
    ensures LibroConEjemplar(s, isbn) && UsuarioLibre(s, run) && !PrestamoAdmitido(s, isbn, run, dias) ==>
              r == Salida(s, Failure(ExcedePeriodoMaximo))
    ensures !PrestamoAdmitido(s, isbn, run, dias) ==> r.sistema == s && r.resultado.Failure?
    ensures PrestamoAdmitido(s, isbn, run, dias) ==> r.sistema.(prestamos := s.prestamos) == Marcar(s, isbn, run)
    ensures PrestamoAdmitido(s, isbn, run, dias) && r.resultado.Failure? ==> r.resultado.error.RegistroInvalido?
    ensures r.resultado.Success? ==> r.sistema.prestamos == s.prestamos + [r.resultado.value]
    ensures r.resultado.Success? ==> r.resultado.value == Prestamo(Trim(isbn), Trim(run), hoy, dias, hoy + dias) && dias > 0
    ensures r.resultado.Failure? ==> r.sistema.prestamos == s.prestamos
  {
    match IndiceLibro(s.libros, isbn)
    case None => Salida(s, Failure(LibroNoExiste))
    case Some(li) =>
      if !HayDisponible(s.libros[li]) then Salida(s, Failure(LibroSinEjemplares))
      else match IndiceUsuario(s.usuarios, run)
        case None => Salida(s, Failure(UsuarioNoExiste))
        case Some(ui) =>
          var usuario := s.usuarios[ui];
          if TienePrestamo(usuario) then Salida(s, Failure(UsuarioConPrestamo))
          else if dias > PeriodoMaximoPrestamo(usuario) then Salida(s, Failure(ExcedePeriodoMaximo))
          else
            var t := Marcar(s, isbn, run);
            match NuevoPrestamo(isbn, run, dias, hoy)
            case Failure(e) => Salida(t, Failure(RegistroInvalido(e)))
            case Success(p) => Salida(t.(prestamos := t.prestamos + [p]), Success(p))
  }

  // ---------------------------------------------------------------- returns

  /**
   * `realizarDevolucion`, with the four checks in the source's order; each refusal leaves the
   * state as it was. The fee comes from the OLDEST ledger record for the book and user. The
   * user is freed before the book is put back, so a book already at its total leaves the user
   * freed and the call failed.
   */
  function RealizarDevolucion(s: SistemaBiblioteca, isbn: string, run: string, hoy: int)
    : (r: Salida<Result<int, Fallo>>)
    ensures !ExisteLibro(s, isbn) ==> r == Salida(s, Failure(LibroNoExiste))
    ensures ExisteLibro(s, isbn) && !ExisteUsuario(s, run) ==> r == Salida(s, Failure(UsuarioNoExiste))
    ensures ExisteLibro(s, isbn) && ExisteUsuario(s, run) && !TieneLibro(s, run, isbn) ==>
              r == Salida(s, Failure(NoTieneEsteLibro))
    ensures ExisteLibro(s, isbn) && TieneLibro(s, run, isbn) && !DevolucionAdmitida(s, isbn, run) ==>
              r == Salida(s, Failure(RegistroNoEncontrado))
    ensures !DevolucionAdmitida(s, isbn, run) ==> r.sistema == s && r.resultado.Failure?
    ensures DevolucionAdmitida(s, isbn, run) ==>
              r.sistema.usuarios == s.usuarios[IndiceUsuario(s.usuarios, run).value := SetPrestamo(UsuarioDe(s, run), SinPrestamo)]
    ensures DevolucionAdmitida(s, isbn, run) ==>
              (r.resultado.Success? <==> LibroDe(s, isbn).cantidadDisponible < LibroDe(s, isbn).cantidadBiblioteca)
    ensures DevolucionAdmitida(s, isbn, run) && r.resultado.Failure? ==> r.resultado.error == LibroAlMaximo
    ensures r.resultado.Success? ==>
              r.resultado.value == CalcularMulta(s.prestamos[IndicePrestamo(s.prestamos, isbn, run).value], Some(hoy), hoy)
    ensures r.resultado.Success? ==>
              r.sistema.libros == s.libros[IndiceLibro(s.libros, isbn).value := LibroDe(s, isbn).(cantidadDisponible := LibroDe(s, isbn).cantidadDisponible + 1)]
    ensures r.resultado.Failure? ==> r.sistema.libros == s.libros
    ensures r.sistema.prestamos == s.prestamos
  {
    match IndiceLibro(s.libros, isbn)
    case None => Salida(s, Failure(LibroNoExiste))
    case Some(li) =>
      match IndiceUsuario(s.usuarios, run)
      case None => Salida(s, Failure(UsuarioNoExiste))
      case Some(ui) =>
        var usuario := s.usuarios[ui];
        if usuario.prestamo != isbn then Salida(s, Failure(NoTieneEsteLibro))
        else match IndicePrestamo(s.prestamos, isbn, run)
          case None => Salida(s, Failure(RegistroNoEncontrado))
          case Some(pi) =>
            var multa := CalcularMulta(s.prestamos[pi], Some(hoy), hoy);
            var t := s.(usuarios := s.usuarios[ui := SetPrestamo(usuario, SinPrestamo)]);
            match Devolver(s.libros[li])
            case Failure(_) => Salida(t, Failure(LibroAlMaximo))
            case Success(libro) => Salida(t.(libros := s.libros[li := libro]), Success(multa))
  }

  /** The int the source returns: the fee, or -1 for every refusal. */
  function CodigoDevolucion(r: Result<int, Fallo>): (codigo: int)
    requires r.Success? ==> r.value >= 0
    ensures codigo >= 0 <==> r.Success?
    ensures codigo < 0 ==> codigo == -1
  {
    match r
    case Success(multa) => multa
    case Failure(_) => -1
  }
}
