/**
 * The abstract library user: name, RUN, gender and the loan field, with the two kinds of
 * user (teacher, student) as the variants of its profile.
 */
module Usuarios {
  import opened Text
  import opened Results
  import opened ValidadorRun

  /** The loan field's "no loan" value. Nothing stops a book from having this ISBN too. */
  const SinPrestamo: string := "0"

  const PeriodoDocente: int := 20
  const PeriodoEstudiante: int := 10

  /** What the subclass adds: a teacher's profession and degrees, or a student's programme. */
  datatype Perfil =
    | Docente(profesion: string, grados: seq<string>)
    | Estudiante(carrera: string)

  /** `prestamo` holds `SinPrestamo` or the ISBN of the book on loan. */
  datatype Usuario = Usuario(nombreCompleto: string, run: string, genero: char, prestamo: string, perfil: Perfil)

  /** The reasons the constructors and setters throw `IllegalArgumentException`. */
  datatype UsuarioError =
    | NombreVacio
    | FormatoRunInvalido
    | DigitoVerificadorInvalido
    | GeneroInvalido
    | ProfesionVacia
    | CarreraVacia

  predicate GeneroValido(g: char) {
    g == 'M' || g == 'F'
  }

  /** What every constructor establishes and every setter keeps (the degree list excepted). */
  predicate Valido(u: Usuario) {
    && IsTrimmedText(u.nombreCompleto)
    && ValidarRun(u.run)
    && GeneroValido(u.genero)
    && match u.perfil
       case Docente(profesion, _) => IsTrimmedText(profesion)
       case Estudiante(carrera) => IsTrimmedText(carrera)
  }

  /** The `Usuario` constructor's checks in their order: the first one that fails, if any. */
  function FalloBase(nombre: string, run: string, genero: char): (e: Option<UsuarioError>)
    ensures e.None? <==> !IsBlank(nombre) && ValidarRun(run) && GeneroValido(genero)
    ensures e == Some(NombreVacio) <==> IsBlank(nombre)
    ensures e == Some(FormatoRunInvalido) <==> !IsBlank(nombre) && !ValidarFormato(run)
    ensures e == Some(DigitoVerificadorInvalido) <==>
              !IsBlank(nombre) && ValidarFormato(run) && !ValidarDigitoVerificador(run)
    ensures e == Some(GeneroInvalido) <==> !IsBlank(nombre) && ValidarRun(run) && !GeneroValido(genero)
  {
    if IsBlank(nombre) then Some(NombreVacio)
    else if !ValidarFormato(run) then Some(FormatoRunInvalido)
    else if !ValidarDigitoVerificador(run) then Some(DigitoVerificadorInvalido)
    else if !GeneroValido(genero) then Some(GeneroInvalido)
    else None
  }

  /**
   * The part of a subclass constructor that `super(...)` performs: the base checks, then a
   * user with the trimmed name, the RUN exactly as given and no loan.
   */
  function NuevoUsuario(nombre: string, run: string, genero: char, perfil: Perfil): (r: Result<Usuario, UsuarioError>)
    ensures r.Success? <==> FalloBase(nombre, run, genero).None?
    ensures r.Failure? ==> r.error == FalloBase(nombre, run, genero).value
    ensures r.Success? ==> r.value.nombreCompleto == Trim(nombre)
    ensures r.Success? ==> IsTrimmedText(r.value.nombreCompleto)
    ensures r.Success? ==> r.value.run == run
    ensures r.Success? ==> r.value.genero == genero
    ensures r.Success? ==> !TienePrestamo(r.value)
    ensures r.Success? ==> r.value.perfil == perfil
  {
    match FalloBase(nombre, run, genero)
    case Some(e) => Failure(e)
    case None =>
      TrimmedIsText(nombre);
      Success(Usuario(Trim(nombre), run, genero, SinPrestamo, perfil))
  }

  /** `tienePrestamo`: the loan field is anything but the sentinel. */
  predicate TienePrestamo(u: Usuario) {
    u.prestamo != SinPrestamo
  }

  /** `getPeriodoMaximoPrestamo`, dispatched on the kind of user. */
  function PeriodoMaximoPrestamo(u: Usuario): (dias: int)
    ensures u.perfil.Docente? ==> dias == 20
    ensures u.perfil.Estudiante? ==> dias == 10
  {
    match u.perfil
    case Docente(_, _) => PeriodoDocente
    case Estudiante(_) => PeriodoEstudiante
  }

  /** `setNombreCompleto`: rejects a blank name; otherwise stores it trimmed and touches nothing else. */
  function SetNombreCompleto(u: Usuario, nombre: string): (r: Result<Usuario, UsuarioError>)
    ensures r.Success? <==> !IsBlank(nombre)
    ensures r.Failure? ==> r.error == NombreVacio
    ensures r.Success? ==> r.value == u.(nombreCompleto := Trim(nombre))
    ensures r.Success? && Valido(u) ==> Valido(r.value)
  {
    if IsBlank(nombre) then Failure(NombreVacio)
    else
      TrimmedIsText(nombre);
      Success(u.(nombreCompleto := Trim(nombre)))
  }

  /** `setRun`: the constructor's two RUN checks, in order; the RUN is stored as written. */
  function SetRun(u: Usuario, run: string): (r: Result<Usuario, UsuarioError>)
    ensures r.Success? <==> ValidarRun(run)
    ensures r.Failure? ==> r.error == (if ValidarFormato(run) then DigitoVerificadorInvalido else FormatoRunInvalido)
    ensures r.Success? ==> r.value == u.(run := run)
    ensures r.Success? && Valido(u) ==> Valido(r.value)
  {
    if !ValidarFormato(run) then Failure(FormatoRunInvalido)
    else if !ValidarDigitoVerificador(run) then Failure(DigitoVerificadorInvalido)
    else Success(u.(run := run))
  }

  /** `setGenero`: only 'M' and 'F' are accepted. */
  function SetGenero(u: Usuario, genero: char): (r: Result<Usuario, UsuarioError>)
    ensures r.Success? <==> GeneroValido(genero)
    ensures r.Failure? ==> r.error == GeneroInvalido
    ensures r.Success? ==> r.value == u.(genero := genero)
    ensures r.Success? && Valido(u) ==> Valido(r.value)
  {
    if !GeneroValido(genero) then Failure(GeneroInvalido) else Success(u.(genero := genero))
  }

  /** `setPrestamo`: stores any value, unchecked; storing the sentinel frees the user. */
  function SetPrestamo(u: Usuario, prestamo: string): (r: Usuario)
    ensures r.prestamo == prestamo
    ensures TienePrestamo(r) <==> prestamo != SinPrestamo
    ensures r.(prestamo := u.prestamo) == u
  {
    u.(prestamo := prestamo)
  }

  /** The loan field is outside every validity rule, so writing it keeps a valid user valid. */
  lemma SetPrestamoConservaValido(u: Usuario, prestamo: string)
    requires Valido(u)
    ensures Valido(SetPrestamo(u, prestamo))
  {
  }
}
