/** The student: a programme of study; loans of up to 10 days. */
module Estudiantes {
  import opened Text
  import opened Results
  import opened Usuarios

  /** The constructor: base checks first, then a non-blank programme, stored trimmed. */
  function NuevoEstudiante(nombre: string, run: string, genero: char, carrera: string): (r: Result<Usuario, UsuarioError>)
    ensures r.Success? <==> FalloBase(nombre, run, genero).None? && !IsBlank(carrera)
    ensures FalloBase(nombre, run, genero).Some? ==> r == Failure(FalloBase(nombre, run, genero).value)
    ensures FalloBase(nombre, run, genero).None? && IsBlank(carrera) ==> r == Failure(CarreraVacia)
    ensures r.Success? ==> Valido(r.value)
    ensures r.Success? ==> !TienePrestamo(r.value)
    ensures r.Success? ==> PeriodoMaximoPrestamo(r.value) == 10
    ensures r.Success? ==> r.value.run == run
    ensures r.Success? ==> r.value.nombreCompleto == Trim(nombre)
    ensures r.Success? ==> r.value.perfil == Estudiante(Trim(carrera))
  {
    match NuevoUsuario(nombre, run, genero, Estudiante(Trim(carrera)))
    case Failure(e) => Failure(e)
    case Success(u) =>
      if IsBlank(carrera) then Failure(CarreraVacia)
      else
        TrimmedIsText(carrera);
        Success(u)
  }

  /** `setCarrera`: rejects a blank programme; otherwise stores it trimmed. */
  function SetCarrera(u: Usuario, carrera: string): (r: Result<Usuario, UsuarioError>)
    requires u.perfil.Estudiante?
    ensures r.Success? <==> !IsBlank(carrera)
    ensures r.Failure? ==> r.error == CarreraVacia
    ensures r.Success? ==> r.value == u.(perfil := Estudiante(Trim(carrera)))
    ensures r.Success? && Valido(u) ==> Valido(r.value)
  {
    if IsBlank(carrera) then Failure(CarreraVacia)
    else
      TrimmedIsText(carrera);
      Success(u.(perfil := Estudiante(Trim(carrera))))
  }
}
