/** What every part of the wrapper shares: byte strings, error codes, the exception
    hierarchy, and the two functions that turn an error code into a result or an exception.

    The numeric codes are those of Oracle's atmi.h, which the repository includes. */
module Atmi {
  newtype Byte = b: int | 0 <= b < 256
  type Bytes = seq<Byte>

  datatype Option<+T> = None | Some(value: T)
  {
    function GetOr(default: T): T {
      if Some? then value else default
    }
  }

  /** A C++ call either returns a value or throws. */
  datatype Result<+T> = Ok(value: T) | Thrown(exn: Exn)

  const TPEBLOCK := 3
  const TPEINVAL := 4
  const TPELIMIT := 5
  const TPENOENT := 6
  const TPEOS := 7
  const TPEPERM := 8
  const TPEPROTO := 9
  const TPESVCERR := 10
  const TPESVCFAIL := 11
  const TPESYSTEM := 12
  const TPETIME := 13
  const TPETRAN := 14
  const TPGOTSIG := 15
  const TPEITYPE := 17
  const TPEOTYPE := 18
  const TPEDIAGNOSTIC := 24

  const QMEABORTED := -8
  const QMENOMSG := -11

  /** The exception classes of exceptions.hpp, plus what `new char[n]` throws for a negative n. */
  datatype Exn =
    | BadArrayLength
    | AtmiException
    | BufferException(ferror: int)
    | TuxedoException(tperrno: int)
    | BlockingException
    | InterruptException
    | ServiceException
    | TimeoutException
    | DiagnosticException(tperrno: int, diagno: int)
    | AbortedException
  {
    /** Is this a tuxedo_exception or one of the classes derived from it? */
    predicate IsTuxedo() {
      !BadArrayLength? && !AtmiException? && !BufferException?
    }

    /** tuxedo_exception::error(): the tperrno the exception was raised for. */
    function Error(): int
      requires IsTuxedo()
    {
      match this
      case TuxedoException(e) => e
      case BlockingException => TPEBLOCK
      case InterruptException => TPGOTSIG
      case ServiceException => TPESVCERR
      case TimeoutException => TPETIME
      case DiagnosticException(e, _) => e
      case AbortedException => TPEDIAGNOSTIC
    }
  }

  /** tuxedo::handle_tperrno. `urcode` is the library's tpurcode. */
  function HandleTperrno(tperrno: int, urcode: int): Result<int> {
    if tperrno in {TPEINVAL, TPEPERM, TPENOENT, TPEITYPE, TPEOTYPE, TPETRAN, TPEPROTO,
                   TPESYSTEM, TPEOS, TPELIMIT} then
      Thrown(TuxedoException(tperrno))
    else if tperrno == TPEBLOCK then Thrown(BlockingException)
    else if tperrno == TPGOTSIG then Thrown(InterruptException)
    else if tperrno == TPESVCERR then Thrown(ServiceException)
    else if tperrno == TPETIME then Thrown(TimeoutException)
    else if tperrno == TPESVCFAIL then Ok(if urcode > 0 then urcode else -1)
    else Thrown(TuxedoException(tperrno))
  }

  /** queue::handle_diagnostics. Every diagnostic the source lists, and every one it has never
      heard about, raises a diagnostic_exception; only two are treated apart. */
  function HandleDiagnostics(tperrno: int, diagno: int): Result<int> {
    if diagno == QMEABORTED then Thrown(AbortedException)
    else if diagno == QMENOMSG then Ok(diagno)
    else Thrown(DiagnosticException(tperrno, diagno))
  }

  /** What handle_tperrno makes of every code. One code returns: the application's own error
      number, or -1, so it can be mistaken neither for success nor for an empty queue. Four codes
      have a class of their own, all others are a plain tuxedo_exception; and every exception
      carries the code it was raised for. */
  lemma TperrnoClassification(tperrno: int, urcode: int)
    ensures var r := HandleTperrno(tperrno, urcode);
            && (r.Ok? <==> tperrno == TPESVCFAIL)
            && (tperrno == TPESVCFAIL && urcode > 0 ==> r == Ok(urcode))
            && (tperrno == TPESVCFAIL && urcode <= 0 ==> r == Ok(-1))
            && (r.Thrown? ==> r.exn.IsTuxedo() && r.exn.Error() == tperrno)
            && (r == Thrown(BlockingException) <==> tperrno == TPEBLOCK)
            && (r == Thrown(InterruptException) <==> tperrno == TPGOTSIG)
            && (r == Thrown(ServiceException) <==> tperrno == TPESVCERR)
            && (r == Thrown(TimeoutException) <==> tperrno == TPETIME)
            && (r == Thrown(TuxedoException(tperrno))
                <==> tperrno !in {TPESVCFAIL, TPEBLOCK, TPGOTSIG, TPESVCERR, TPETIME})
  {
  }

  /** What handle_diagnostics makes of every diagnostic: "no message" returns, an aborted
      transaction has a class of its own, and all others are a diagnostic_exception that carries
      both numbers, each in its place. */
  lemma DiagnosticsClassification(tperrno: int, diagno: int)
    ensures var r := HandleDiagnostics(tperrno, diagno);
            && (r.Ok? <==> diagno == QMENOMSG)
            && (r.Ok? ==> r.value == QMENOMSG)
            && (r == Thrown(AbortedException) <==> diagno == QMEABORTED)
            && (r == Thrown(DiagnosticException(tperrno, diagno)) <==> diagno !in {QMENOMSG, QMEABORTED})
            && (r.Thrown? && tperrno == TPEDIAGNOSTIC ==> r.exn.IsTuxedo() && r.exn.Error() == tperrno)
  {
  }
}
