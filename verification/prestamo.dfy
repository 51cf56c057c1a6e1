/** One loan record of the ledger: who took which book, when, and until when; and its late fee. */
module Prestamos {
  import opened Text
  import opened Results

  /** The fee for each day a book comes back late. */
  const MultaPorDia: int := 1000

  /** Dates are day numbers (days since an epoch), so adding days and subtracting dates is exact. */
  datatype Prestamo = Prestamo(isbn: string, run: string, fechaPrestamo: int, diasPrestados: int, fechaDevolucion: int)

  datatype PrestamoError = IsbnPrestamoVacio | RunPrestamoVacio | DiasNoPositivos

  /**
   * The constructor: a non-blank ISBN, a non-blank RUN and a positive duration, checked in that
   * order; both keys stored trimmed, the loan dated `hoy` and due `diasPrestados` days later.
   */
  function NuevoPrestamo(isbn: string, run: string, diasPrestados: int, hoy: int): (r: Result<Prestamo, PrestamoError>)
    ensures r.Success? <==> !IsBlank(isbn) && !IsBlank(run) && diasPrestados > 0
    ensures IsBlank(isbn) ==> r == Failure(IsbnPrestamoVacio)
    ensures !IsBlank(isbn) && IsBlank(run) ==> r == Failure(RunPrestamoVacio)
    ensures !IsBlank(isbn) && !IsBlank(run) && diasPrestados <= 0 ==> r == Failure(DiasNoPositivos)
    ensures r.Success? ==> r.value.isbn == Trim(isbn) && r.value.run == Trim(run)
    ensures r.Success? ==> r.value.fechaPrestamo == hoy && r.value.diasPrestados == diasPrestados
    ensures r.Success? ==> r.value.fechaDevolucion == hoy + diasPrestados > hoy
  {
    if IsBlank(isbn) then Failure(IsbnPrestamoVacio)
    else if IsBlank(run) then Failure(RunPrestamoVacio)
    else if diasPrestados <= 0 then Failure(DiasNoPositivos)
    else Success(Prestamo(Trim(isbn), Trim(run), hoy, diasPrestados, hoy + diasPrestados))
  }

  /**
   * `calcularMulta`: 1000 for every day the return date lies after the due date, else nothing.
   * A missing return date means `hoy`. The record itself is a value and cannot change.
   */
  function CalcularMulta(p: Prestamo, fechaDevolucionReal: Option<int>, hoy: int): (multa: int)
    ensures multa >= 0
    ensures var fecha := if fechaDevolucionReal.Some? then fechaDevolucionReal.value else hoy;
            (fecha <= p.fechaDevolucion ==> multa == 0) &&
            (fecha > p.fechaDevolucion ==> multa == MultaPorDia * (fecha - p.fechaDevolucion))
  {
    var fecha := if fechaDevolucionReal.Some? then fechaDevolucionReal.value else hoy;
    var diasRetraso := fecha - p.fechaDevolucion;
    if diasRetraso > 0 then diasRetraso * MultaPorDia else 0
  }

  /** A later return never costs less. */
  lemma MultaMonotona(p: Prestamo, d1: int, d2: int, hoy: int)
    requires d1 <= d2
    ensures CalcularMulta(p, Some(d1), hoy) <= CalcularMulta(p, Some(d2), hoy)
  {
  }

  /** Past the due date, each further day adds exactly one day's fee. */
  lemma MultaPorDiaAdicional(p: Prestamo, d: int, hoy: int)
    requires d >= p.fechaDevolucion
    ensures CalcularMulta(p, Some(d + 1), hoy) == CalcularMulta(p, Some(d), hoy) + MultaPorDia
  {
  }

  /** A null return date is today's date. */
  lemma MultaSinFechaEsHoy(p: Prestamo, hoy: int)
    ensures CalcularMulta(p, None, hoy) == CalcularMulta(p, Some(hoy), hoy)
  {
  }

  /** A seven-day loan: nothing on or before the due date, 3000 three days after it. */
  lemma MultaSieteDias(isbn: string, run: string, hoy: int)
    requires !IsBlank(isbn) && !IsBlank(run)
    ensures NuevoPrestamo(isbn, run, 7, hoy).Success?
    ensures CalcularMulta(NuevoPrestamo(isbn, run, 7, hoy).value, Some(hoy + 7), hoy) == 0
    ensures CalcularMulta(NuevoPrestamo(isbn, run, 7, hoy).value, Some(hoy + 2), hoy) == 0
    ensures CalcularMulta(NuevoPrestamo(isbn, run, 7, hoy).value, Some(hoy + 10), hoy) == 3000
  {
  }
}
