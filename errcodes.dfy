/** Error codes: the registry of `Coder`s, and how an error is mapped to a coder. */
module ErrorCodes {
  import opened Wrappers

  /** `defaultCoder`: the integer code, the HTTP status to answer with, the user-facing
      text and a reference document. */
  datatype Coder = Coder(code: int, http: int, ext: string, ref: string)

  /** `http.StatusInternalServerError`. */
  const InternalServerError: int := 500

  /** `unknownCoder`: what an error without a registered code maps to. */
  const UnknownCoder: Coder := Coder(1, InternalServerError, "An internal server error occurred", "")

  /** `HTTPStatus`: the coder's own status, or 500 when it has none; never 0. */
  function HTTPStatus(c: Coder): (s: int)
    ensures s != 0
    ensures c.http != 0 ==> s == c.http
    ensures c.http == 0 ==> s == InternalServerError
  {
    if c.http == 0 then InternalServerError else c.http
  }

  /** An error as `ParseCoder` and `IsCode` see it: a `*withCode` with its code and the
      error it wraps (nil when `None`), or an error of any other type. */
  datatype Error = WithCode(code: int, cause: Option<Error>) | Other

  /** `IsCode`: whether the error is a `*withCode` with this code, or wraps (through a
      chain of `*withCode`s) one that is. A nil error has no code. */
  function IsCode(err: Option<Error>, code: int): (b: bool)
    ensures b ==> err.Some? && err.value.WithCode?
    ensures err.Some? && err.value.WithCode? && err.value.code == code ==> b
    decreases err
  {
    match err
    case Some(WithCode(c, cause)) => c == code || (cause.Some? && IsCode(cause, code))
    case _ => false
  }

  /** The codes along the chain of `*withCode` causes, outermost first. */
  function CodeChain(err: Option<Error>): (r: seq<int>)
    ensures err.Some? && err.value.WithCode? ==> |r| > 0 && r[0] == err.value.code
    decreases err
  {
    match err
    case Some(WithCode(c, cause)) => [c] + CodeChain(cause)
    case _ => []
  }

  /** `IsCode` holds exactly for the codes on the chain. */
  lemma {:induction false} IsCodeOnChain(err: Option<Error>, code: int)
    ensures IsCode(err, code) <==> code in CodeChain(err)
    decreases err
  {
    match err
    case Some(WithCode(c, cause)) =>
      IsCodeOnChain(cause, code);
    case _ =>
  }

  /** Why a registration panics. */
  datatype Panic =
    | ReservedCode          // "code `0` is reserved by ... as unknownCode error code"
    | AlreadyExists(code: int) // "code: %d already exist"

  /** The package's `codes` map. */
  class Registry {
    var codes: map<int, Coder>

    /** Every coder is registered under its own code, and code 0 never is. */
    ghost predicate Valid()
      reads this
    {
      forall c :: c in codes ==> c != 0 && codes[c].code == c
    }

    /** The map as the package starts with it: empty. */
    constructor ()
      ensures Valid() && codes == map[]
    {
      codes := map[];
    }

    /** `Register`: stores the coder under its code, replacing any coder already there;
        code 0 panics and changes nothing. */
    method Register(coder: Coder) returns (p: Option<Panic>)
      requires Valid()
      modifies this
      ensures Valid()
      ensures coder.code == 0 ==> p == Some(ReservedCode) && codes == old(codes)
      ensures coder.code != 0 ==> p == None && codes == old(codes)[coder.code := coder]
    {
      if coder.code == 0 {
        return Some(ReservedCode);
      }
      codes := codes[coder.code := coder];
      return None;
    }

    /** `MustRegister`: as `Register`, but a code already registered panics too and
        changes nothing. */
    method MustRegister(coder: Coder) returns (p: Option<Panic>)
      requires Valid()
      modifies this
      ensures Valid()
      ensures coder.code == 0 ==> p == Some(ReservedCode) && codes == old(codes)
      ensures coder.code != 0 && coder.code in old(codes) ==>
        p == Some(AlreadyExists(coder.code)) && codes == old(codes)
      ensures coder.code != 0 && coder.code !in old(codes) ==>
        p == None && codes == old(codes)[coder.code := coder]
    {
      if coder.code == 0 {
        return Some(ReservedCode);
      }
      if coder.code in codes {
        return Some(AlreadyExists(coder.code));
      }
      codes := codes[coder.code := coder];
      return None;
    }

    /** `ParseCoder`: nil for a nil error; the registered coder for a `*withCode` whose
        code is registered; `unknownCoder` for anything else. With a valid registry the
        coder found never has code 0, and it is one the error `IsCode` of. */
    function ParseCoder(err: Option<Error>): (r: Option<Coder>)
      reads this
      ensures r.None? <==> err.None?
      ensures Valid() && r.Some? ==> r.value.code != 0
      ensures Valid() && r.Some? && r.value != UnknownCoder ==> IsCode(err, r.value.code)
      ensures err.Some? && err.value.WithCode? && err.value.code in codes ==> r == Some(codes[err.value.code])
      ensures err.Some? && !(err.value.WithCode? && err.value.code in codes) ==> r == Some(UnknownCoder)
    {
      if err.None? then None
      else if err.value.WithCode? && err.value.code in codes then Some(codes[err.value.code])
      else Some(UnknownCoder)
    }
  }
}
