# Library loans (`biblioteca`), modelled in Dafny

The system manages a small university library. Its users are people identified by a Chilean
RUN: teachers (`Docente`), who may borrow a book for up to 20 days, and students (`Estudiante`),
who may borrow one for up to 10. The catalogue holds books (`Libro`), each with a total number of
copies and a count of copies on the shelf. `SistemaBiblioteca` keeps three lists: users, books
and the loan ledger (`Prestamo` records). It offers create, edit, delete, search and list
operations, plus the two transactions that matter:

- `realizarPrestamo` lends a copy to a user who holds nothing;
- `realizarDevolucion` takes the copy back and charges 1000 for every day past the due date.

RUNs are checked by `ValidadorRUN`. It applies a format pattern (`12.345.678-5` or `12345678-5`),
then computes the modulo-11 check character with weights 2..7 applied from the right.

The model is functional, with one module per source class:

- entities are immutable datatypes;
- a constructor or setter that can throw returns a `Result`, and the error value names the
  reason for the exception;
- every operation of `SistemaBiblioteca` takes the state and returns a `Salida`: the new state
  together with what the Java method hands back;
- refusals that the source prints and answers with `null` or `-1` become `Fallo` tags;
- dates are whole day numbers, and "today" (`LocalDate.now()` in the source) is a parameter.

Where the source changes part of the state and then fails, the model keeps that partial change:

- a loan for a non-positive number of days;
- a return when the book's shelf count is already at its total.

The module `Hallazgos` holds three defects of the source, listed under Findings below. For each
one it gives a corrected definition, proved against the as-written one.

Modules:

- `Results`: `Option` and `Result`.
- `Text`: Java's `trim`, blankness, digits and `toUpperCase`.
- `ValidadorRun`: the RUN validator.
- `ValidadorRunPropiedades`: the validator's properties and the concrete RUN vectors.
- `Usuarios`, `Docentes`, `Estudiantes`: the users.
- `Libros`: the books.
- `Prestamos`: loan records and fees.
- `Sistema`: the controller.
- `SistemaPropiedades`: the system invariant and round trips.
- `Hallazgos`: the findings.

## Model

| member | source | states |
|---|---|---|
| Text.Trim | biblioteca/src/main/java/unab/biblioteca/models/Usuario.java:47 | the result neither starts nor ends with a character at or below U+0020; it is empty exactly when the input is all such characters; an input without them is returned unchanged |
| Text.TrimmedIsText | biblioteca/src/main/java/unab/biblioteca/models/Usuario.java:47 | trimming a non-blank string gives a value that is non-blank and already trimmed, so constructors and setters store a stable value |
| Text.TrimIdempotent | biblioteca/src/main/java/unab/biblioteca/models/Libro.java:59-61 | trimming twice is trimming once |
| Text.ToUpper | biblioteca/src/main/java/unab/biblioteca/utils/ValidadorRUN.java:69 | lower-case ASCII letters move to upper case; every other character is unchanged |
| ValidadorRun.ValidarFormato | biblioteca/src/main/java/unab/biblioteca/utils/ValidadorRUN.java:18-26 | true exactly when the string is 1-2 digits, an optional dot, 3 digits, an optional dot, 3 digits, a hyphen and a check character in 0-9/k/K; false for the empty string |
| ValidadorRun.Parse | biblioteca/src/main/java/unab/biblioteca/utils/ValidadorRUN.java:23-25 | whatever the recogniser reads is a well-formed cut that renders back to the input |
| ValidadorRun.ParseRender | biblioteca/src/main/java/unab/biblioteca/utils/ValidadorRUN.java:23-25 | every well-formed RUN is read back as exactly the cut it was written from, so the pattern is unambiguous |
| ValidadorRun.FormatComplete | biblioteca/src/main/java/unab/biblioteca/utils/ValidadorRUN.java:23-25 | the recogniser accepts every string that matches the pattern |
| ValidadorRun.StripDotRender | biblioteca/src/main/java/unab/biblioteca/utils/ValidadorRUN.java:23 | an optional dot after a digit group is recognised as present or absent, exactly as written |
| ValidadorRun.Limpiar | biblioteca/src/main/java/unab/biblioteca/utils/ValidadorRUN.java:34-39 | the cleaned string holds no dot and no hyphen and is no longer than the input |
| ValidadorRun.LimpiarConcat | biblioteca/src/main/java/unab/biblioteca/utils/ValidadorRUN.java:38 | cleaning distributes over concatenation |
| ValidadorRun.LimpiarDigits | biblioteca/src/main/java/unab/biblioteca/utils/ValidadorRUN.java:38 | a string of digits is left unchanged by cleaning |
| ValidadorRun.LimpiarRender | biblioteca/src/main/java/unab/biblioteca/utils/ValidadorRUN.java:34-39 | cleaning a well-formed RUN leaves exactly its body digits followed by its check character, whatever dots it had |
| ValidadorRun.WeightStep | biblioteca/src/main/java/unab/biblioteca/utils/ValidadorRUN.java:91-97 | the weight series steps up by one and restarts at 2 after 7 |
| ValidadorRun.CheckCharFor | biblioteca/src/main/java/unab/biblioteca/utils/ValidadorRUN.java:100-110 | remainder 0 gives '0', remainder 1 gives 'K', otherwise the digit 11 minus the remainder |
| ValidadorRun.CheckCharInjective | biblioteca/src/main/java/unab/biblioteca/utils/ValidadorRUN.java:100-110 | two sums get the same check character exactly when they agree modulo 11, and the character is a valid upper-case check character |
| ValidadorRun.CalcularDigitoVerificador | biblioteca/src/main/java/unab/biblioteca/utils/ValidadorRUN.java:83-111 | the right-to-left loop with the wrapping multiplier returns the reference check character of the body |
| ValidadorRun.ValidarDigitoVerificador | biblioteca/src/main/java/unab/biblioteca/utils/ValidadorRUN.java:54-74 | acceptance implies the format check passed |
| ValidadorRun.ValidarRun | biblioteca/src/main/java/unab/biblioteca/utils/ValidadorRUN.java:119-121 | the verdict equals the check-character verdict alone |
| ValidadorRunPropiedades.AcceptsIff | biblioteca/src/main/java/unab/biblioteca/utils/ValidadorRUN.java:54-74 | a well-formed RUN passes exactly when its check character, upper-cased, is the one its body calls for |
| ValidadorRunPropiedades.ValidarRunIsCheckDigit | biblioteca/src/main/java/unab/biblioteca/utils/ValidadorRUN.java:119-121 | `validarRUN` and `validarDigitoVerificador` agree on every string, and both imply the format |
| ValidadorRunPropiedades.CaseInsensitive | biblioteca/src/main/java/unab/biblioteca/utils/ValidadorRUN.java:69 | a RUN ending in k and the same RUN ending in K get the same verdict |
| ValidadorRunPropiedades.DotsIrrelevant | biblioteca/src/main/java/unab/biblioteca/utils/ValidadorRUN.java:54-74 | dotted and undotted writings of the same RUN get the same verdict |
| ValidadorRunPropiedades.UniqueCheckChar | biblioteca/src/main/java/unab/biblioteca/utils/ValidadorRUN.java:61-69 | two accepted RUNs with the same body have the same check character up to k/K case |
| ValidadorRunPropiedades.ExpectedIsAccepted | biblioteca/src/main/java/unab/biblioteca/utils/ValidadorRUN.java:61-69 | every well-formed body has an accepted check character: the computed one |
| ValidadorRunPropiedades.OtherCheckCharRejected | biblioteca/src/main/java/unab/biblioteca/utils/ValidadorRUN.java:61-69 | any check character other than the computed one is rejected |
| ValidadorRunPropiedades.Expected12345678 | biblioteca/src/main/java/unab/biblioteca/utils/ValidadorRUN.java:83-111 | the body 12345678 calls for '5' |
| ValidadorRunPropiedades.Expected19876543 | biblioteca/src/main/java/unab/biblioteca/utils/ValidadorRUN.java:83-111 | the body 19876543 calls for '0' |
| ValidadorRunPropiedades.Expected20123456 | biblioteca/src/main/java/unab/biblioteca/utils/ValidadorRUN.java:83-111 | the body 20123456 calls for '5' |
| ValidadorRunPropiedades.AcceptedVector | biblioteca/src/main/java/unab/biblioteca/Biblioteca.java:59 | the teacher's demo RUN "12345678-5" is accepted |
| ValidadorRunPropiedades.AcceptedDottedVector | biblioteca/src/main/java/unab/biblioteca/utils/ValidadorRUN.java:23-25 | "12.345.678-5" is accepted too |
| ValidadorRunPropiedades.RejectedVector | biblioteca/src/main/java/unab/biblioteca/Biblioteca.java:71 | the demo RUN "19876543-2" is well-formed but rejected |
| ValidadorRunPropiedades.CorrectedVector | biblioteca/src/main/java/unab/biblioteca/utils/ValidadorRUN.java:83-111 | "19876543-0" is accepted |
| ValidadorRunPropiedades.RejectedKVector | biblioteca/src/main/java/unab/biblioteca/Biblioteca.java:81 | the demo RUN "20123456-K" is well-formed but rejected |
| ValidadorRunPropiedades.CorrectedKVector | biblioteca/src/main/java/unab/biblioteca/utils/ValidadorRUN.java:83-111 | "20123456-5" is accepted |
| ValidadorRunPropiedades.MalformedVectors | biblioteca/src/main/java/unab/biblioteca/utils/ValidadorRUN.java:18-26 | the empty string, a six-digit body and a RUN without its hyphen fail the format check; a dot in the wrong place makes the RUN invalid |
| ValidadorRunPropiedades.MisplacedDotRejected | biblioteca/src/main/java/unab/biblioteca/utils/ValidadorRUN.java:23-25 | "123.45678-5" is rejected, although its digits are those of a valid RUN |
| ValidadorRunPropiedades.RenderNoWhite | biblioteca/src/main/java/unab/biblioteca/utils/ValidadorRUN.java:23-25 | a well-formed RUN contains no character that `trim` strips |
| ValidadorRunPropiedades.RunValidoEsTexto | biblioteca/src/main/java/unab/biblioteca/models/Usuario.java:33-48 | a RUN the validator accepts is non-blank and already trimmed |
| Usuarios.FalloBase | biblioteca/src/main/java/unab/biblioteca/models/Usuario.java:26-45 | the constructor's four checks in their order: blank name, then format, then check character, then gender; no error exactly when all four pass |
| Usuarios.NuevoUsuario | biblioteca/src/main/java/unab/biblioteca/models/Usuario.java:26-51 | construction fails exactly when a base check fails, with that check's error; a new user has the trimmed name, the RUN exactly as given, the gender, and no loan |
| Usuarios.PeriodoMaximoPrestamo | biblioteca/src/main/java/unab/biblioteca/models/Docente.java:57-60 | 20 days for a teacher and 10 for a student (Estudiante.java:36-39) |
| Usuarios.SetNombreCompleto | biblioteca/src/main/java/unab/biblioteca/models/Usuario.java:76-81 | a blank name is refused; otherwise only the name changes, to the trimmed value, and a valid user stays valid |
| Usuarios.SetRun | biblioteca/src/main/java/unab/biblioteca/models/Usuario.java:87-95 | accepted exactly when the RUN is valid; a format error comes before a check-character error; on success only the RUN changes |
| Usuarios.SetGenero | biblioteca/src/main/java/unab/biblioteca/models/Usuario.java:101-106 | only 'M' and 'F' are accepted; on success only the gender changes |
| Usuarios.SetPrestamo | biblioteca/src/main/java/unab/biblioteca/models/Usuario.java:112-114 | any value is stored without a check; the user then has a loan exactly when the value is not "0"; storing back the old value restores the user |
| Usuarios.SetPrestamoConservaValido | biblioteca/src/main/java/unab/biblioteca/models/Usuario.java:112-114 | writing the loan field never makes a valid user invalid |
| Docentes.NuevoDocente | biblioteca/src/main/java/unab/biblioteca/models/Docente.java:24-33 | the base checks come first, then a blank profession is refused; a new teacher is valid, holds no loan, may borrow 20 days, and has the trimmed profession and no degrees |
| Docentes.NuevoDocenteConGrados | biblioteca/src/main/java/unab/biblioteca/models/Docente.java:44-50 | fails exactly as the 4-argument constructor; otherwise the given degree list is stored verbatim, and a null list leaves it empty |
| Docentes.AgregarGrado | biblioteca/src/main/java/unab/biblioteca/models/Docente.java:67-71 | the trimmed degree is appended exactly when it is non-blank and absent, otherwise nothing changes; the old list is a prefix of the new one; nothing but the list changes; a duplicate-free list stays duplicate-free |
| Docentes.AgregarGradoIdempotente | biblioteca/src/main/java/unab/biblioteca/models/Docente.java:67-71 | adding the same degree twice is the same as adding it once |
| Docentes.AgregarGradosSinDuplicados | biblioteca/src/main/java/unab/biblioteca/models/Docente.java:67-71 | any sequence of additions keeps a duplicate-free list duplicate-free and only extends it |
| Docentes.NuevoDocenteSinDuplicados | biblioteca/src/main/java/unab/biblioteca/models/Docente.java:67-71 | a teacher from the 4-argument constructor whose degrees only came through `agregarGrado` has no duplicate degree |
| Docentes.NormalizarGrados | biblioteca/src/main/java/unab/biblioteca/models/Docente.java:90-99 | the list `setGrados` builds holds only trimmed non-blank degrees and is no longer than its input |
| Docentes.NormalizarGradosUno | biblioteca/src/main/java/unab/biblioteca/models/Docente.java:93-96 | a single degree is dropped when blank and otherwise kept, trimmed |
| Docentes.NormalizarGradosConcat | biblioteca/src/main/java/unab/biblioteca/models/Docente.java:92-97 | the list built from two parts is the first part's list followed by the second's, so every non-blank degree is kept, trimmed, in its original place |
| Docentes.NormalizarGradosLimpios | biblioteca/src/main/java/unab/biblioteca/models/Docente.java:90-99 | a list already trimmed and non-blank comes through unchanged, order and repeats included |
| Docentes.NormalizarGradosIdempotente | biblioteca/src/main/java/unab/biblioteca/models/Docente.java:90-99 | normalising twice is normalising once |
| Docentes.SetGradosConservaDuplicados | biblioteca/src/main/java/unab/biblioteca/models/Docente.java:90-99 | a degree given twice is stored twice: `setGrados` does not remove duplicates |
| Docentes.SetGrados | biblioteca/src/main/java/unab/biblioteca/models/Docente.java:90-99 | only the degree list changes; it becomes the normalised argument list (non-blank degrees trimmed, in order, repeats kept); a null list empties it |
| Docentes.SetProfesion | biblioteca/src/main/java/unab/biblioteca/models/Docente.java:79-84 | a blank profession is refused; otherwise only the profession changes, to the trimmed value |
| Estudiantes.NuevoEstudiante | biblioteca/src/main/java/unab/biblioteca/models/Estudiante.java:22-29 | the base checks come first, then a blank programme is refused; a new student is valid, holds no loan, may borrow 10 days, and has the trimmed programme |
| Estudiantes.SetCarrera | biblioteca/src/main/java/unab/biblioteca/models/Estudiante.java:47-52 | a blank programme is refused; otherwise only the programme changes, to the trimmed value |
| Libros.NuevoLibro | biblioteca/src/main/java/unab/biblioteca/models/Libro.java:28-65 | succeeds exactly when ISBN, title and author are non-blank, the total is positive and 0 < available <= total, with the first failing check's error; a new book stores ISBN, title and author trimmed, a given image trimmed and a null image as "", the given counts, and has a copy on the shelf |
| Libros.Prestar | biblioteca/src/main/java/unab/biblioteca/models/Libro.java:72-87 | succeeds exactly when a copy is on the shelf, taking exactly one away and changing nothing else; keeps 0 <= available <= total |
| Libros.Devolver | biblioteca/src/main/java/unab/biblioteca/models/Libro.java:95-100 | succeeds exactly when the shelf is below the total, putting exactly one back and changing nothing else; keeps 0 <= available <= total |
| Libros.PrestarDevolver | biblioteca/src/main/java/unab/biblioteca/models/Libro.java:82-100 | lending a copy and taking it back restores the book, and the return cannot fail |
| Libros.DevolverPrestar | biblioteca/src/main/java/unab/biblioteca/models/Libro.java:82-100 | taking a copy back and lending it again restores the book |
| Libros.Aplicar | biblioteca/src/main/java/unab/biblioteca/models/Libro.java:82-100 | any sequence of loans and returns keeps the counts in [0, total] and never changes the total |
| Libros.SetIsbn | biblioteca/src/main/java/unab/biblioteca/models/Libro.java:108-113 | a blank ISBN is refused; otherwise only the ISBN changes, to the trimmed value |
| Libros.SetTitulo | biblioteca/src/main/java/unab/biblioteca/models/Libro.java:119-124 | a blank title is refused; otherwise only the title changes, to the trimmed value |
| Libros.SetAutor | biblioteca/src/main/java/unab/biblioteca/models/Libro.java:130-135 | a blank author is refused; otherwise only the author changes, to the trimmed value |
| Libros.SetCantidadBiblioteca | biblioteca/src/main/java/unab/biblioteca/models/Libro.java:141-146 | accepted exactly when the total is positive; only the total changes; the count invariant survives only if the shelf count fits |
| Libros.SetCantidadBibliotecaRompeCuentas | biblioteca/src/main/java/unab/biblioteca/models/Libro.java:141-146 | shrinking the total below the shelf count is accepted and breaks the count invariant |
| Libros.SetCantidadDisponible | biblioteca/src/main/java/unab/biblioteca/models/Libro.java:152-160 | accepted exactly for 0 <= available <= total, with the negative check first; only the shelf count changes |
| Libros.DisponibleCeroSoloPorSetter | biblioteca/src/main/java/unab/biblioteca/models/Libro.java:152-160 | the constructor refuses an empty shelf that the setter accepts |
| Libros.SetImagen | biblioteca/src/main/java/unab/biblioteca/models/Libro.java:166-168 | only the image changes: a given image is stored trimmed and a null image as "", the same rule as the constructor |
| Prestamos.NuevoPrestamo | biblioteca/src/main/java/unab/biblioteca/models/Prestamo.java:29-45 | refuses a blank ISBN, then a blank RUN, then a non-positive duration; stores both keys trimmed, dates the loan today, and puts the due date that many days later, strictly after the loan date |
| Prestamos.CalcularMulta | biblioteca/src/main/java/unab/biblioteca/models/Prestamo.java:77-91 | the fee is never negative; nothing is due on or before the due date; after it, 1000 for each day late; a null date means today |
| Prestamos.MultaMonotona | biblioteca/src/main/java/unab/biblioteca/models/Prestamo.java:83-87 | a later return never costs less |
| Prestamos.MultaPorDiaAdicional | biblioteca/src/main/java/unab/biblioteca/models/Prestamo.java:83-87 | past the due date, each extra day adds exactly 1000 |
| Prestamos.MultaSinFechaEsHoy | biblioteca/src/main/java/unab/biblioteca/models/Prestamo.java:77-81 | a null return date is charged as a return today |
| Prestamos.MultaSieteDias | biblioteca/src/main/java/unab/biblioteca/models/Prestamo.java:77-91 | a seven-day loan costs nothing on its due date or earlier, and 3000 three days after it |
| Sistema.IndiceUsuario | biblioteca/src/main/java/unab/biblioteca/controllers/SistemaBiblioteca.java:116-127 | the position of the first user whose RUN equals the key exactly; none exactly when no user has it |
| Sistema.IndiceLibro | biblioteca/src/main/java/unab/biblioteca/controllers/SistemaBiblioteca.java:183-194 | the position of the first book whose ISBN equals the key exactly; none exactly when no book has it |
| Sistema.IndicePrestamo | biblioteca/src/main/java/unab/biblioteca/controllers/SistemaBiblioteca.java:304-315 | the position of the first ledger record for the book and user; none exactly when there is none |
| Sistema.IndiceUsuarioAlFinal | biblioteca/src/main/java/unab/biblioteca/controllers/SistemaBiblioteca.java:116-127 | a user appended with a new RUN is found at the end |
| Sistema.IndiceLibroAlFinal | biblioteca/src/main/java/unab/biblioteca/controllers/SistemaBiblioteca.java:183-194 | a book appended with a new ISBN is found at the end |
| Sistema.BuscarUsuarioPorRun | biblioteca/src/main/java/unab/biblioteca/controllers/SistemaBiblioteca.java:116-127 | a found user is registered under that RUN; nothing is found exactly when no user has it |
| Sistema.BuscarLibroPorIsbn | biblioteca/src/main/java/unab/biblioteca/controllers/SistemaBiblioteca.java:183-194 | a found book is registered under that ISBN; nothing is found exactly when no book has it |
| Sistema.BuscarPrestamo | biblioteca/src/main/java/unab/biblioteca/controllers/SistemaBiblioteca.java:342-349 | a found record is in the ledger for the book and user; nothing is found exactly when there is no such record |
| Sistema.ListarUsuarios | biblioteca/src/main/java/unab/biblioteca/controllers/SistemaBiblioteca.java:134-136 | the listing holds the registered users in insertion order |
| Sistema.ListarLibros | biblioteca/src/main/java/unab/biblioteca/controllers/SistemaBiblioteca.java:201-203 | the listing holds the registered books in insertion order |
| Sistema.ListarPrestamos | biblioteca/src/main/java/unab/biblioteca/controllers/SistemaBiblioteca.java:356-358 | the listing holds the ledger's records in insertion order |
| Sistema.CrearUsuario | biblioteca/src/main/java/unab/biblioteca/controllers/SistemaBiblioteca.java:38-49 | true exactly for a non-null user whose RUN is new, and then the user is appended and found; otherwise nothing changes; RUNs stay distinct |
| Sistema.EliminarUsuario | biblioteca/src/main/java/unab/biblioteca/controllers/SistemaBiblioteca.java:100-108 | true exactly when the RUN is registered, and then exactly that user is removed; books and ledger are untouched; with distinct keys the RUN is gone afterwards |
| Sistema.CopiarDatos | biblioteca/src/main/java/unab/biblioteca/controllers/SistemaBiblioteca.java:73-88 | the loan field is never copied; valid data is copied without an error: name, RUN, gender and, for the same kind of user, the profile; a different kind keeps its own profile |
| Sistema.EditarUsuario | biblioteca/src/main/java/unab/biblioteca/controllers/SistemaBiblioteca.java:59-91 | refused with no change for an absent current RUN, null data, or a new RUN another user holds; once those checks pass, the edit always happens: that user's entry becomes the setter chain's copy and no other entry changes, the loan field is kept, and the result is success exactly when no setter threw (otherwise that setter's error); RUNs stay distinct |
| Sistema.CrearLibro | biblioteca/src/main/java/unab/biblioteca/controllers/SistemaBiblioteca.java:147-158 | true exactly for a non-null book whose ISBN is new, and then the book is appended and found; otherwise nothing changes; ISBNs stay distinct |
| Sistema.EliminarLibro | biblioteca/src/main/java/unab/biblioteca/controllers/SistemaBiblioteca.java:167-175 | true exactly when the ISBN is registered, and then exactly that book is removed; users and ledger are untouched |
| Sistema.RealizarPrestamo | biblioteca/src/main/java/unab/biblioteca/controllers/SistemaBiblioteca.java:216-269 | the five checks in their order, each refusal leaving the state unchanged; once all pass, the user is marked and a copy taken; success appends exactly the returned record, dated today and due after `dias` days; a failure never touches the ledger |
| Sistema.RealizarDevolucion | biblioteca/src/main/java/unab/biblioteca/controllers/SistemaBiblioteca.java:282-333 | the four checks in their order, each refusal leaving the state unchanged; once all pass, the user is freed; success puts one copy back and returns the fee of the first matching record; the ledger never changes |
| Sistema.CodigoDevolucion | biblioteca/src/main/java/unab/biblioteca/controllers/SistemaBiblioteca.java:282-333 | the int returned is non-negative exactly on success, and -1 for every refusal |
| SistemaPropiedades.IndiceUsuarioMismosRuns | biblioteca/src/main/java/unab/biblioteca/controllers/SistemaBiblioteca.java:116-127 | rewriting users without changing their RUNs moves no lookup |
| SistemaPropiedades.IndiceLibroMismosIsbns | biblioteca/src/main/java/unab/biblioteca/controllers/SistemaBiblioteca.java:183-194 | rewriting books without changing their ISBNs moves no lookup |
| SistemaPropiedades.IndicePrestamoAlFinal | biblioteca/src/main/java/unab/biblioteca/controllers/SistemaBiblioteca.java:304-315 | a record appended for a pair that had none is the one the return finds |
| SistemaPropiedades.ReemplazarUsuario | biblioteca/src/main/java/unab/biblioteca/controllers/SistemaBiblioteca.java:254 | replacing a user by one with the same RUN keeps RUNs distinct and users valid |
| SistemaPropiedades.ReemplazarLibro | biblioteca/src/main/java/unab/biblioteca/controllers/SistemaBiblioteca.java:257 | replacing a book by one with the same ISBN keeps ISBNs distinct, trimmed and counts in range |
| SistemaPropiedades.AgregarUsuario | biblioteca/src/main/java/unab/biblioteca/controllers/SistemaBiblioteca.java:48 | appending a valid user keeps every user valid |
| SistemaPropiedades.CambiarUsuario | biblioteca/src/main/java/unab/biblioteca/controllers/SistemaBiblioteca.java:73-88 | overwriting a user with a valid one keeps every user valid |
| SistemaPropiedades.QuitarUsuario | biblioteca/src/main/java/unab/biblioteca/controllers/SistemaBiblioteca.java:107 | removing a user keeps the others valid |
| SistemaPropiedades.AgregarLibro | biblioteca/src/main/java/unab/biblioteca/controllers/SistemaBiblioteca.java:157 | appending a book with a trimmed ISBN and counts in range keeps both properties for every book |
| SistemaPropiedades.QuitarLibro | biblioteca/src/main/java/unab/biblioteca/controllers/SistemaBiblioteca.java:174 | removing a book keeps both properties for the rest |
| SistemaPropiedades.CrearUsuarioConserva | biblioteca/src/main/java/unab/biblioteca/controllers/SistemaBiblioteca.java:38-49 | creating a valid user keeps the system coherent: distinct keys, valid entities, counts in range, well-formed records |
| SistemaPropiedades.EliminarUsuarioConserva | biblioteca/src/main/java/unab/biblioteca/controllers/SistemaBiblioteca.java:100-108 | deleting a user keeps the system coherent |
| SistemaPropiedades.CrearLibroConserva | biblioteca/src/main/java/unab/biblioteca/controllers/SistemaBiblioteca.java:147-158 | creating a book with a trimmed ISBN and valid counts keeps the system coherent |
| SistemaPropiedades.EliminarLibroConserva | biblioteca/src/main/java/unab/biblioteca/controllers/SistemaBiblioteca.java:167-175 | deleting a book keeps the system coherent |
| SistemaPropiedades.EditarConserva | biblioteca/src/main/java/unab/biblioteca/controllers/SistemaBiblioteca.java:59-91 | editing a user with valid data keeps the system coherent |
| SistemaPropiedades.PrestamoConserva | biblioteca/src/main/java/unab/biblioteca/controllers/SistemaBiblioteca.java:216-269 | a loan, refused or not, keeps the system coherent |
| SistemaPropiedades.PrestamoConservaListas | biblioteca/src/main/java/unab/biblioteca/controllers/SistemaBiblioteca.java:252-257 | the writes of an admitted loan keep keys distinct, entities valid and counts in range |
| SistemaPropiedades.AgregarRegistro | biblioteca/src/main/java/unab/biblioteca/controllers/SistemaBiblioteca.java:261 | appending a record the constructor built keeps the ledger well-formed |
| SistemaPropiedades.PrestamoConservaRegistros | biblioteca/src/main/java/unab/biblioteca/controllers/SistemaBiblioteca.java:258-261 | a loan only ever adds well-formed records |
| SistemaPropiedades.DevolucionConserva | biblioteca/src/main/java/unab/biblioteca/controllers/SistemaBiblioteca.java:282-333 | a return, refused or not, keeps the system coherent |
| SistemaPropiedades.Ejecutar | biblioteca/src/main/java/unab/biblioteca/controllers/SistemaBiblioteca.java:38-333 | any single public call leaves the old ledger as a prefix of the new one and adds at most one record |
| SistemaPropiedades.EjecutarConserva | biblioteca/src/main/java/unab/biblioteca/controllers/SistemaBiblioteca.java:38-333 | any single call with arguments as the entity classes make them keeps the system coherent |
| SistemaPropiedades.EjecutarTodas | biblioteca/src/main/java/unab/biblioteca/controllers/SistemaBiblioteca.java:38-358 | any sequence of calls keeps the system coherent; the ledger only grows, by at most one record per call |
| SistemaPropiedades.VacioCoherente | biblioteca/src/main/java/unab/biblioteca/controllers/SistemaBiblioteca.java:23-27 | the empty system is coherent |
| SistemaPropiedades.CrearEliminarUsuario | biblioteca/src/main/java/unab/biblioteca/controllers/SistemaBiblioteca.java:38-108 | creating a user with a new RUN and deleting that RUN restores the original state |
| SistemaPropiedades.CrearEliminarLibro | biblioteca/src/main/java/unab/biblioteca/controllers/SistemaBiblioteca.java:147-175 | creating a book with a new ISBN and deleting that ISBN restores the original state |
| SistemaPropiedades.CopiarMismosDatos | biblioteca/src/main/java/unab/biblioteca/controllers/SistemaBiblioteca.java:73-88 | copying a valid user's own data onto it changes nothing and raises nothing |
| SistemaPropiedades.EditarConLosMismosDatos | biblioteca/src/main/java/unab/biblioteca/controllers/SistemaBiblioteca.java:59-91 | editing a user with their own data succeeds and leaves the state as it was |
| SistemaPropiedades.EditarEscribeCopia | biblioteca/src/main/java/unab/biblioteca/controllers/SistemaBiblioteca.java:59-91 | editing with valid data succeeds, the copied user is found under the new RUN, and every other user is unchanged |
| SistemaPropiedades.MarcarConservaIndices | biblioteca/src/main/java/unab/biblioteca/controllers/SistemaBiblioteca.java:252-257 | the loan's writes move neither the user nor the book, and the user afterwards holds the ISBN |
| SistemaPropiedades.PrestamoAdmitidoRegistra | biblioteca/src/main/java/unab/biblioteca/controllers/SistemaBiblioteca.java:252-263 | with trimmed keys and a positive duration, an admitted loan marks the user, takes a copy, and appends and returns exactly the requested record |
| SistemaPropiedades.DevolucionDeshaceMarcar | biblioteca/src/main/java/unab/biblioteca/controllers/SistemaBiblioteca.java:304-332 | returning the book right after a loan's writes restores users and books exactly, keeps the record, and charges the fee of the record the return finds |
| SistemaPropiedades.PrestarYDevolver | biblioteca/src/main/java/unab/biblioteca/controllers/SistemaBiblioteca.java:216-333 | in a coherent system a first loan followed by its return leaves users and books as they were, with the record added, and charges that record's fee for the return date |
| SistemaPropiedades.PrestamoBloqueaUsuario | biblioteca/src/main/java/unab/biblioteca/controllers/SistemaBiblioteca.java:237-254 | after a successful loan of any book whose ISBN is not "0", the user has a loan and every further loan fails |
| SistemaPropiedades.IsbnCeroNoBloquea | biblioteca/src/main/java/unab/biblioteca/models/Usuario.java:66-68 | a successful loan of a book whose ISBN is "0" leaves the user free, because that value is the "no loan" marker |
| SistemaPropiedades.RunConYSinPuntos | biblioteca/src/main/java/unab/biblioteca/controllers/SistemaBiblioteca.java:38-49 | the dotted and undotted writings of one RUN are equally valid, yet both can be registered as two distinct users |
| SistemaPropiedades.DevolucionLiberaSinDevolver | biblioteca/src/main/java/unab/biblioteca/controllers/SistemaBiblioteca.java:317-332 | when the shelf is already full, the return fails yet the user has been freed and the books are unchanged |
| Hallazgos.PrestamoNoAtomico | biblioteca/src/main/java/unab/biblioteca/controllers/SistemaBiblioteca.java:252-268 | a loan for a non-positive number of days fails, but the state has changed: the user is marked with no record, the return then fails, and so does every further loan |
| Hallazgos.RealizarPrestamoAtomico | biblioteca/src/main/java/unab/biblioteca/controllers/SistemaBiblioteca.java:216-269 | the corrected loan answers as the original does; a failure leaves the state unchanged; a success leaves the same state as the original |
| Hallazgos.PrestamoAtomicoNoBloquea | biblioteca/src/main/java/unab/biblioteca/controllers/SistemaBiblioteca.java:216-269 | with the correction, a refused loan never takes a free user's freedom away or touches the books |
| Hallazgos.IndiceUltimoPrestamo | biblioteca/src/main/java/unab/biblioteca/controllers/SistemaBiblioteca.java:304-315 | the last ledger record for the pair: none exactly when the first lookup finds none, never before the first one, and no later record matches |
| Hallazgos.IndicePrestamoPrefijoSinUltimo | biblioteca/src/main/java/unab/biblioteca/controllers/SistemaBiblioteca.java:304-315 | a last record for another pair does not affect the first lookup |
| Hallazgos.IndicePrestamoPrefijo | biblioteca/src/main/java/unab/biblioteca/controllers/SistemaBiblioteca.java:304-315 | once a pair has a record, appending records never changes which one the first lookup finds |
| Hallazgos.DevolucionCobraRegistroAntiguo | biblioteca/src/main/java/unab/biblioteca/controllers/SistemaBiblioteca.java:304-319 | after a second loan of the same book by the same user, the return charges the fee of the old record |
| Hallazgos.RegistroAntiguoEjemplo | biblioteca/src/main/java/unab/biblioteca/controllers/SistemaBiblioteca.java:304-319 | an old record due on day 5 and a new loan from day 100 for 10 days, returned on day 105: as written 100000, corrected 0 |
| Hallazgos.RealizarDevolucionUltimo | biblioteca/src/main/java/unab/biblioteca/controllers/SistemaBiblioteca.java:282-333 | the corrected return changes the state as the original, succeeds and fails in the same cases, and charges the fee of the last record for the pair |
| Hallazgos.DevolucionUltimoCobraPrestamoActual | biblioteca/src/main/java/unab/biblioteca/controllers/SistemaBiblioteca.java:216-333 | with the correction, returning right after any admitted loan restores users and books and charges the fee of that loan |
| Hallazgos.EstudiantesDemoRechazados | biblioteca/src/main/java/unab/biblioteca/Biblioteca.java:69-84 | the demo students' RUNs "19876543-2" and "20123456-K" make the constructor fail with a check-character error |
| Hallazgos.EstudiantesDemoCorregidos | biblioteca/src/main/java/unab/biblioteca/Biblioteca.java:69-84 | with "19876543-0" and "20123456-5" the same students are created |

## Left out

- Java `null` for string arguments is not modelled: a Dafny string is never null. Null objects
  (a user, a book, the edit data) and null lists are modelled with `Option`.
- `Prestamos.CalcularMulta`: the fee is unbounded. It does not model the `(int)` cast of
  `diasRetraso * 1000` wrapping for returns more than about 2.1 million days late.
- `toString` and `generarTarjetaPrestamo` (`Prestamo.java:52-68`) are not modelled. They are
  string formatting and date printing only.
- The console menu (`MenuPrincipal.java`) and the `main` and demo loader of `Biblioteca.java`
  are not modelled: they are console I/O. The demo's RUN literals appear only as test vectors
  and among the findings.
- The messages that `SistemaBiblioteca` prints on each refusal become the `Fallo` reason tags;
  the text is not kept.
- `java.time` is replaced by day numbers. `LocalDate.now()` becomes the `hoy` parameter, and
  `plusDays` and `ChronoUnit.DAYS.between` become integer addition and subtraction.
- Object aliasing is not modelled: entities are values found by key. A caller in Java that
  keeps a reference to a registered `Libro` or `Usuario` and mutates it through a setter
  bypasses the controller. The model has no such path.
- `String.trim` is modelled as stripping characters at or below U+0020. `toUpperCase` covers
  the ASCII letters only, which are the only letters the validator compares.
- `getNumericValue` is applied only to ASCII digits, because the format check runs first.
  `CalcularDigitoVerificador` therefore requires an all-digit body.
- `SistemaPropiedades.EjecutarConserva`: the system invariant covers calls whose new users
  and books are as the entity constructors and setters leave them. A `Libro` whose total was
  later shrunk by `setCantidadBiblioteca` can break the count invariant; see
  `Libros.SetCantidadBibliotecaRompeCuentas`.
- Atomic loans are not what the code does, so the main model does not have them. Every refusal
  made by one of `SistemaBiblioteca`'s precondition checks leaves the state as it was, and a
  refused loan evidently should too. The code, however, marks the user and takes a copy before
  it builds the record, and the record's constructor can still throw. The model follows the
  code; the atomic version is in `Hallazgos`. A return refused because the shelf is full also
  keeps a partial write, the freed user, as `SistemaPropiedades.DevolucionLiberaSinDevolver`
  shows.

## Findings

| source | as written | input that shows it | evidently intended | confidence | as-written member | corrected member |
|---|---|---|---|---|---|---|
| biblioteca/src/main/java/unab/biblioteca/controllers/SistemaBiblioteca.java:252-268 | the user is marked and a copy taken before `new Prestamo` checks that the duration is positive; the exception is caught and null returned, with those writes kept | a free user borrows an available book for 0 days | a refused loan changes nothing | not executed | Hallazgos.PrestamoNoAtomico | Hallazgos.RealizarPrestamoAtomico |
| biblioteca/src/main/java/unab/biblioteca/controllers/SistemaBiblioteca.java:304-315 | the return charges the fee of the FIRST ledger record for the book and user; records are never removed | a record due on day 5 is on file; the same user borrows the same book on day 100 for 10 days and returns it on day 105: fee 100000 | charge the loan being returned: fee 0 | not executed | Hallazgos.RegistroAntiguoEjemplo | Hallazgos.DevolucionUltimoCobraPrestamoActual |
| biblioteca/src/main/java/unab/biblioteca/Biblioteca.java:69-84 | the demo students have RUNs "19876543-2" and "20123456-K", whose check characters are wrong; the first constructor throws and the rest of the demo loading is skipped | `new Estudiante(..., "19876543-2", ...)` | "19876543-0" and "20123456-5" | not executed | Hallazgos.EstudiantesDemoRechazados | Hallazgos.EstudiantesDemoCorregidos |
