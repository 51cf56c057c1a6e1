/** The teacher: a profession and an ordered list of academic degrees; loans of up to 20 days. */
module Docentes {
  import opened Text
  import opened Results
  import opened Usuarios

  /** No degree appears twice. */
  predicate SinDuplicados(grados: seq<string>) {
    forall i, j | 0 <= i < j < |grados| :: grados[i] != grados[j]
  }

  /** The 4-argument constructor: base checks first, then a non-blank profession; no degrees yet. */
  function NuevoDocente(nombre: string, run: string, genero: char, profesion: string): (r: Result<Usuario, UsuarioError>)
    ensures r.Success? <==> FalloBase(nombre, run, genero).None? && !IsBlank(profesion)
    ensures FalloBase(nombre, run, genero).Some? ==> r == Failure(FalloBase(nombre, run, genero).value)
    ensures FalloBase(nombre, run, genero).None? && IsBlank(profesion) ==> r == Failure(ProfesionVacia)
    ensures r.Success? ==> Valido(r.value)
    ensures r.Success? ==> !TienePrestamo(r.value)
    ensures r.Success? ==> PeriodoMaximoPrestamo(r.value) == 20
    ensures r.Success? ==> r.value.run == run
    ensures r.Success? ==> r.value.nombreCompleto == Trim(nombre)
    ensures r.Success? ==> r.value.perfil == Docente(Trim(profesion), [])
  {
    match NuevoUsuario(nombre, run, genero, Docente(Trim(profesion), []))
    case Failure(e) => Failure(e)
    case Success(u) =>
      if IsBlank(profesion) then Failure(ProfesionVacia)
      else
        TrimmedIsText(profesion);
        Success(u)
  }

  /** The 5-argument constructor: as above, then the given list copied verbatim (null keeps it empty). */
  function NuevoDocenteConGrados(nombre: string, run: string, genero: char, profesion: string,
                                 grados: Option<seq<string>>): (r: Result<Usuario, UsuarioError>)
    ensures r.Success? <==> NuevoDocente(nombre, run, genero, profesion).Success?
    ensures r.Failure? ==> r == NuevoDocente(nombre, run, genero, profesion)
    ensures r.Success? ==> Valido(r.value)
    ensures r.Success? ==> !TienePrestamo(r.value)
    ensures r.Success? ==> r.value.perfil.Docente?
    ensures r.Success? ==> r.value.perfil.profesion == Trim(profesion)
    ensures r.Success? ==> r.value.perfil.grados == (if grados.Some? then grados.value else [])
  {
    match NuevoDocente(nombre, run, genero, profesion)
    case Failure(e) => Failure(e)
    case Success(u) =>
      if grados.Some? then Success(u.(perfil := u.perfil.(grados := grados.value))) else Success(u)
  }

  /**
   * `agregarGrado`: appends the trimmed degree unless it is blank or already present; the
   * earlier degrees keep their order and nothing else about the user changes.
   */
  function AgregarGrado(u: Usuario, grado: string): (r: Usuario)
    requires u.perfil.Docente?
    ensures r.perfil.Docente? && r == u.(perfil := u.perfil.(grados := r.perfil.grados))
    ensures u.perfil.grados <= r.perfil.grados
    ensures !IsBlank(grado) && Trim(grado) !in u.perfil.grados ==> r.perfil.grados == u.perfil.grados + [Trim(grado)]
    ensures IsBlank(grado) || Trim(grado) in u.perfil.grados ==> r == u
    ensures !IsBlank(grado) ==> Trim(grado) in r.perfil.grados
    ensures SinDuplicados(u.perfil.grados) ==> SinDuplicados(r.perfil.grados)
    ensures Valido(u) ==> Valido(r)
  {
    if !IsBlank(grado) && Trim(grado) !in u.perfil.grados then
      u.(perfil := u.perfil.(grados := u.perfil.grados + [Trim(grado)]))
    else u
  }

  /** Adding the same degree twice is the same as adding it once. */
  lemma AgregarGradoIdempotente(u: Usuario, grado: string)
    requires u.perfil.Docente?
    ensures AgregarGrado(AgregarGrado(u, grado), grado) == AgregarGrado(u, grado)
  {
  }

  /** Several `agregarGrado` calls, in order. */
  function AgregarGrados(u: Usuario, grados: seq<string>): (r: Usuario)
    requires u.perfil.Docente?
    ensures r.perfil.Docente?
    decreases |grados|
  {
    if grados == [] then u else AgregarGrados(AgregarGrado(u, grados[0]), grados[1..])
  }

  /** A degree list that only `agregarGrado` has touched never holds a duplicate. */
  lemma {:induction false} AgregarGradosSinDuplicados(u: Usuario, grados: seq<string>)
    requires u.perfil.Docente? && SinDuplicados(u.perfil.grados)
    ensures SinDuplicados(AgregarGrados(u, grados).perfil.grados)
    ensures u.perfil.grados <= AgregarGrados(u, grados).perfil.grados
    decreases |grados|
  {
    if grados != [] {
      AgregarGradosSinDuplicados(AgregarGrado(u, grados[0]), grados[1..]);
    }
  }

  /** In particular for a teacher fresh from the 4-argument constructor. */
  lemma NuevoDocenteSinDuplicados(nombre: string, run: string, genero: char, profesion: string, grados: seq<string>)
    requires NuevoDocente(nombre, run, genero, profesion).Success?
    ensures SinDuplicados(AgregarGrados(NuevoDocente(nombre, run, genero, profesion).value, grados).perfil.grados)
  {
    AgregarGradosSinDuplicados(NuevoDocente(nombre, run, genero, profesion).value, grados);
  }

  /** The list `setGrados` builds: the non-blank inputs, trimmed, in their order, duplicates kept. */
  function NormalizarGrados(grados: seq<string>): (r: seq<string>)
    ensures |r| <= |grados|
    ensures forall i | 0 <= i < |r| :: IsTrimmedText(r[i])
  {
    if grados == [] then []
    else if IsBlank(grados[0]) then NormalizarGrados(grados[1..])
    else
      TrimmedIsText(grados[0]);
      [Trim(grados[0])] + NormalizarGrados(grados[1..])
  }

  /** One degree on its own: dropped when blank, otherwise kept trimmed. */
  lemma NormalizarGradosUno(grado: string)
    ensures NormalizarGrados([grado]) == if IsBlank(grado) then [] else [Trim(grado)]
  {
    assert [grado][1..] == [];
  }

  /** The first degree is handled on its own, then the rest of the list. */
  lemma NormalizarGradosPaso(grados: seq<string>)
    requires grados != []
    ensures NormalizarGrados(grados) == NormalizarGrados([grados[0]]) + NormalizarGrados(grados[1..])
  {
    NormalizarGradosUno(grados[0]);
  }

  /**
   * Normalising a concatenation normalises each part and keeps them in order. With
   * `NormalizarGradosUno` this pins the list down: each non-blank degree, trimmed, in its place.
   */
  lemma {:induction false} NormalizarGradosConcat(a: seq<string>, b: seq<string>)
    ensures NormalizarGrados(a + b) == NormalizarGrados(a) + NormalizarGrados(b)
    decreases |a|
  {
    if a == [] {
      assert a + b == b;
    } else {
      var ab := a + b;
      assert ab[0] == a[0] && ab[1..] == a[1..] + b;
      var h, na, nb := NormalizarGrados([a[0]]), NormalizarGrados(a[1..]), NormalizarGrados(b);
      NormalizarGradosPaso(ab);
      NormalizarGradosPaso(a);
      NormalizarGradosConcat(a[1..], b);
      assert NormalizarGrados(ab) == h + (na + nb);
      assert NormalizarGrados(a) == h + na;
      ConcatAsociativa(h, na, nb);
    }
  }

  /** Regrouping a concatenation, stated apart so the step above stays cheap. */
  lemma ConcatAsociativa<T>(x: seq<T>, y: seq<T>, z: seq<T>)
    ensures x + (y + z) == (x + y) + z
  {
  }

  /** A list that is already clean comes through unchanged: nothing is deduplicated. */
  lemma {:induction false} NormalizarGradosLimpios(grados: seq<string>)
    requires forall i | 0 <= i < |grados| :: IsTrimmedText(grados[i])
    ensures NormalizarGrados(grados) == grados
  {
    if grados != [] {
      NormalizarGradosLimpios(grados[1..]);
    }
  }

  /** Normalising twice is normalising once. */
  lemma NormalizarGradosIdempotente(grados: seq<string>)
    ensures NormalizarGrados(NormalizarGrados(grados)) == NormalizarGrados(grados)
  {
    NormalizarGradosLimpios(NormalizarGrados(grados));
  }

  /** `setGrados` keeps repeated degrees, unlike `agregarGrado`: a degree given twice is stored twice. */
  lemma SetGradosConservaDuplicados(grado: string)
    requires IsTrimmedText(grado)
    ensures NormalizarGrados([grado, grado]) == [grado, grado]
    ensures !SinDuplicados(NormalizarGrados([grado, grado]))
  {
    NormalizarGradosLimpios([grado, grado]);
  }

  /** `setGrados`: replaces the list by its normalisation; a null list empties it. */
  function SetGrados(u: Usuario, grados: Option<seq<string>>): (r: Usuario)
    requires u.perfil.Docente?
    ensures r.perfil.Docente? && r == u.(perfil := u.perfil.(grados := r.perfil.grados))
    ensures forall i | 0 <= i < |r.perfil.grados| :: IsTrimmedText(r.perfil.grados[i])
    ensures grados.Some? ==> r.perfil.grados == NormalizarGrados(grados.value)
    ensures grados.None? ==> r.perfil.grados == []
    ensures Valido(u) ==> Valido(r)
  {
    u.(perfil := u.perfil.(grados := if grados.Some? then NormalizarGrados(grados.value) else []))
  }

  /** `setProfesion`: rejects a blank profession; otherwise stores it trimmed. */
  function SetProfesion(u: Usuario, profesion: string): (r: Result<Usuario, UsuarioError>)
    requires u.perfil.Docente?
    ensures r.Success? <==> !IsBlank(profesion)
    ensures r.Failure? ==> r.error == ProfesionVacia
    ensures r.Success? ==> r.value == u.(perfil := u.perfil.(profesion := Trim(profesion)))
    ensures r.Success? && Valido(u) ==> Valido(r.value)
  {
    if IsBlank(profesion) then Failure(ProfesionVacia)
    else
      TrimmedIsText(profesion);
      Success(u.(perfil := u.perfil.(profesion := Trim(profesion))))
  }
}
