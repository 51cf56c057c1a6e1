/** A catalogue title: identifying text fields and two copy counters. */
module Libros {
  import opened Text
  import opened Results

  datatype Libro = Libro(isbn: string, titulo: string, autor: string,
                         cantidadBiblioteca: int, cantidadDisponible: int, imagen: string)

  /** The reasons the constructor and setters throw. */
  datatype LibroError =
    | IsbnVacio
    | TituloVacio
    | AutorVacio
    | TotalNoPositivo
    | DisponibleNoPositivo
    | DisponibleNegativo
    | DisponibleExcedeTotal
    | SinEjemplares
    | DisponibleAlMaximo

  /** The counter invariant `prestar` and `devolver` keep: 0 <= available <= total. */
  predicate CuentasValidas(l: Libro) {
    0 <= l.cantidadDisponible <= l.cantidadBiblioteca
  }

  /** The constructor's checks, in order: three non-blank texts, total > 0, 0 < available <= total. */
  function NuevoLibro(isbn: string, titulo: string, autor: string, total: int, disponible: int,
                      imagen: Option<string>): (r: Result<Libro, LibroError>)
    ensures r.Success? <==> !IsBlank(isbn) && !IsBlank(titulo) && !IsBlank(autor) && total > 0 && 0 < disponible <= total
    ensures IsBlank(isbn) ==> r == Failure(IsbnVacio)
    ensures !IsBlank(isbn) && IsBlank(titulo) ==> r == Failure(TituloVacio)
    ensures !IsBlank(isbn) && !IsBlank(titulo) && IsBlank(autor) ==> r == Failure(AutorVacio)
    ensures !IsBlank(isbn) && !IsBlank(titulo) && !IsBlank(autor) && total <= 0 ==> r == Failure(TotalNoPositivo)
    ensures !IsBlank(isbn) && !IsBlank(titulo) && !IsBlank(autor) && total > 0 && disponible <= 0 ==>
              r == Failure(DisponibleNoPositivo)
    ensures !IsBlank(isbn) && !IsBlank(titulo) && !IsBlank(autor) && total > 0 && 0 < disponible && total < disponible ==>
              r == Failure(DisponibleExcedeTotal)
    ensures r.Success? ==> IsTrimmedText(r.value.isbn) && r.value.isbn == Trim(isbn)
    ensures r.Success? ==> IsTrimmedText(r.value.titulo) && r.value.titulo == Trim(titulo)
    ensures r.Success? ==> IsTrimmedText(r.value.autor) && r.value.autor == Trim(autor)
    ensures r.Success? && imagen.Some? ==> r.value.imagen == Trim(imagen.value)
    ensures r.Success? && imagen.None? ==> r.value.imagen == []
    ensures r.Success? ==> r.value.cantidadBiblioteca == total && r.value.cantidadDisponible == disponible
    ensures r.Success? ==> CuentasValidas(r.value) && HayDisponible(r.value)
  {
    if IsBlank(isbn) then Failure(IsbnVacio)
    else if IsBlank(titulo) then Failure(TituloVacio)
    else if IsBlank(autor) then Failure(AutorVacio)
    else if total <= 0 then Failure(TotalNoPositivo)
    else if disponible <= 0 then Failure(DisponibleNoPositivo)
    else if disponible > total then Failure(DisponibleExcedeTotal)
    else
      TrimmedIsText(isbn);
      TrimmedIsText(titulo);
      TrimmedIsText(autor);
      Success(Libro(Trim(isbn), Trim(titulo), Trim(autor), total, disponible, ImagenGuardada(imagen)))
  }

  /** The image as the constructor and `setImagen` store it: trimmed, with a null image as "". */
  function ImagenGuardada(imagen: Option<string>): string {
    if imagen.Some? then Trim(imagen.value) else []
  }

  /** `hayDisponible`: at least one copy on the shelf. */
  predicate HayDisponible(l: Libro) {
    l.cantidadDisponible > 0
  }

  /** `prestar`: one copy fewer on the shelf, or a failure with nothing changed when none is left. */
  function Prestar(l: Libro): (r: Result<Libro, LibroError>)
    ensures r.Success? <==> HayDisponible(l)
    ensures r.Failure? ==> r.error == SinEjemplares
    ensures r.Success? ==> r.value.cantidadDisponible == l.cantidadDisponible - 1
    ensures r.Success? ==> r.value.(cantidadDisponible := l.cantidadDisponible) == l
    ensures r.Success? && CuentasValidas(l) ==> CuentasValidas(r.value)
  {
    if !HayDisponible(l) then Failure(SinEjemplares)
    else Success(l.(cantidadDisponible := l.cantidadDisponible - 1))
  }

  /** `devolver`: one copy more on the shelf, or a failure with nothing changed when all are there. */
  function Devolver(l: Libro): (r: Result<Libro, LibroError>)
    ensures r.Success? <==> l.cantidadDisponible < l.cantidadBiblioteca
    ensures r.Failure? ==> r.error == DisponibleAlMaximo
    ensures r.Success? ==> r.value.cantidadDisponible == l.cantidadDisponible + 1
    ensures r.Success? ==> r.value.(cantidadDisponible := l.cantidadDisponible) == l
    ensures r.Success? && CuentasValidas(l) ==> CuentasValidas(r.value)
  {
    if l.cantidadDisponible >= l.cantidadBiblioteca then Failure(DisponibleAlMaximo)
    else Success(l.(cantidadDisponible := l.cantidadDisponible + 1))
  }

  /** Lending a copy and taking it back restores the book; the return cannot fail. */
  lemma PrestarDevolver(l: Libro)
    requires CuentasValidas(l) && HayDisponible(l)
    ensures Prestar(l).Success? && Devolver(Prestar(l).value) == Success(l)
  {
  }

  /** Taking a copy back and lending it again restores the book too. */
  lemma DevolverPrestar(l: Libro)
    requires CuentasValidas(l) && l.cantidadDisponible < l.cantidadBiblioteca
    ensures Devolver(l).Success? && Prestar(Devolver(l).value) == Success(l)
  {
  }

  /** Any sequence of loans and returns keeps the counters within [0, total]. */
  function Aplicar(l: Libro, operaciones: seq<bool>): (r: Libro)
    ensures CuentasValidas(l) ==> CuentasValidas(r)
    ensures r.cantidadBiblioteca == l.cantidadBiblioteca
    decreases |operaciones|
  {
    if operaciones == [] then l
    else
      var siguiente := if operaciones[0] then Prestar(l) else Devolver(l);
      Aplicar(if siguiente.Success? then siguiente.value else l, operaciones[1..])
  }

  function SetIsbn(l: Libro, isbn: string): (r: Result<Libro, LibroError>)
    ensures r.Success? <==> !IsBlank(isbn)
    ensures r.Failure? ==> r.error == IsbnVacio
    ensures r.Success? ==> r.value == l.(isbn := Trim(isbn)) && IsTrimmedText(r.value.isbn)
  {
    if IsBlank(isbn) then Failure(IsbnVacio)
    else
      TrimmedIsText(isbn);
      Success(l.(isbn := Trim(isbn)))
  }

  function SetTitulo(l: Libro, titulo: string): (r: Result<Libro, LibroError>)
    ensures r.Success? <==> !IsBlank(titulo)
    ensures r.Failure? ==> r.error == TituloVacio
    ensures r.Success? ==> r.value == l.(titulo := Trim(titulo)) && IsTrimmedText(r.value.titulo)
  {
    if IsBlank(titulo) then Failure(TituloVacio)
    else
      TrimmedIsText(titulo);
      Success(l.(titulo := Trim(titulo)))
  }

  function SetAutor(l: Libro, autor: string): (r: Result<Libro, LibroError>)
    ensures r.Success? <==> !IsBlank(autor)
    ensures r.Failure? ==> r.error == AutorVacio
    ensures r.Success? ==> r.value == l.(autor := Trim(autor)) && IsTrimmedText(r.value.autor)
  {
    if IsBlank(autor) then Failure(AutorVacio)
    else
      TrimmedIsText(autor);
      Success(l.(autor := Trim(autor)))
  }

  /** `setCantidadBiblioteca`: checks only that the total is positive, not that it covers the copies on the shelf. */
  function SetCantidadBiblioteca(l: Libro, total: int): (r: Result<Libro, LibroError>)
    ensures r.Success? <==> total > 0
    ensures r.Failure? ==> r.error == TotalNoPositivo
    ensures r.Success? ==> r.value == l.(cantidadBiblioteca := total)
    ensures r.Success? && CuentasValidas(l) && l.cantidadDisponible <= total ==> CuentasValidas(r.value)
  {
    if total <= 0 then Failure(TotalNoPositivo) else Success(l.(cantidadBiblioteca := total))
  }

  /** Shrinking the total below the shelf count is accepted, and the counter invariant is lost. */
  lemma SetCantidadBibliotecaRompeCuentas(l: Libro)
    requires CuentasValidas(l) && l.cantidadDisponible >= 2
    ensures SetCantidadBiblioteca(l, 1).Success?
    ensures !CuentasValidas(SetCantidadBiblioteca(l, 1).value)
  {
  }

  /** `setCantidadDisponible`: 0 is accepted here although the constructor refuses it. */
  function SetCantidadDisponible(l: Libro, disponible: int): (r: Result<Libro, LibroError>)
    ensures r.Success? <==> 0 <= disponible <= l.cantidadBiblioteca
    ensures disponible < 0 ==> r == Failure(DisponibleNegativo)
    ensures 0 <= disponible && l.cantidadBiblioteca < disponible ==> r == Failure(DisponibleExcedeTotal)
    ensures r.Success? ==> r.value == l.(cantidadDisponible := disponible)
    ensures r.Success? ==> CuentasValidas(r.value)
  {
    if disponible < 0 then Failure(DisponibleNegativo)
    else if disponible > l.cantidadBiblioteca then Failure(DisponibleExcedeTotal)
    else Success(l.(cantidadDisponible := disponible))
  }

  /** The setter accepts an empty shelf that the constructor would have rejected. */
  lemma DisponibleCeroSoloPorSetter(isbn: string, titulo: string, autor: string, total: int,
                                    imagen: Option<string>)
    requires !IsBlank(isbn) && !IsBlank(titulo) && !IsBlank(autor) && total > 0
    ensures NuevoLibro(isbn, titulo, autor, total, 0, imagen) == Failure(DisponibleNoPositivo)
    ensures SetCantidadDisponible(NuevoLibro(isbn, titulo, autor, total, total, imagen).value, 0).Success?
  {
  }

  /** `setImagen`: stores the image trimmed, with a null image as "", and changes nothing else. */
  function SetImagen(l: Libro, imagen: Option<string>): (r: Libro)
    ensures r.(imagen := l.imagen) == l
    ensures imagen.Some? ==> r.imagen == Trim(imagen.value)
    ensures imagen.None? ==> r.imagen == []
  {
    l.(imagen := ImagenGuardada(imagen))
  }
}
