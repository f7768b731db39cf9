/** Values on the scripting side of the binding: the arguments a host call
    receives, the values it returns or passes to a handler, and the decoded
    property map. */
module Host {
  import opened Wire

  /** One value of a decoded property map. */
  datatype Decoded = DInt(n: int) | DText(s: string) | DUser(pairs: map<string, string>)

  /** A decoded property list, keyed by property name. */
  type PropMap = map<string, Decoded>

  /** A value pushed onto the host stack: a return value or a handler argument. */
  datatype Pushed = Nil | Bool(b: bool) | Int(n: int) | Text(s: string) | Props(m: PropMap)

  /** What a host call does: return some values, or raise an error. */
  datatype Returned = Values(vals: seq<Pushed>) | Raised(message: string)

  /** An argument a host call receives; `Absent` is a position past the last
      argument. Functions and tables are opaque here. */
  datatype Arg = Absent | NilArg | Boolean(b: bool) | Number(n: int) | Str(s: string)
               | Function | Table | Userdata

  /** The argument at 1-based position `n`, as the host stack indexes it. */
  function ArgAt(args: seq<Arg>, n: nat): (a: Arg)
    requires n >= 1
    ensures n <= |args| ==> a == args[n - 1]
    ensures n > |args| ==> a == Absent
  {
    if n <= |args| then args[n - 1] else Absent
  }

  /** A caught error or a value. */
  datatype Result<+T> = Ok(value: T) | Raise(message: string)

  /** The decimal text the host gives an integer when it converts it to a
      string. */
  function DecimalText(n: int): (s: string)
    ensures |s| > 0 && (s[0] == '-' || '0' <= s[0] <= '9')
  {
    if n < 0 then "-" + Digits(-n) else Digits(n)
  }

  function Digits(n: nat): (s: string)
    ensures |s| > 0 && '0' <= s[0] <= '9'
  {
    if n < 10 then [DigitChar(n)] else Digits(n / 10) + [DigitChar(n % 10)]
  }

  function DigitChar(d: nat): (c: char)
    requires d < 10
    ensures '0' <= c <= '9'
  {
    "0123456789"[d]
  }

  /** `luaL_optstring(L, n, NULL)`: nothing or nil gives no string, a string
      or a number gives its text as a C string, anything else raises. */
  function OptString(a: Arg): (r: Result<Option<string>>)
    ensures r.Raise? <==> !(a.Absent? || a.NilArg? || a.Str? || a.Number?)
    ensures r == Ok(None) <==> a.Absent? || a.NilArg?
    ensures a.Str? ==> r == Ok(Some(CStr(a.s)))
  {
    match a
    case Absent => Ok(None)
    case NilArg => Ok(None)
    case Str(s) => Ok(Some(CStr(s)))
    case Number(n) => Ok(Some(DecimalText(n)))
    case _ => Raise("string expected")
  }

  /** The message `luaL_argerror` raises for argument `n`; the name of the
      called function, which the host adds from its debug information, is
      left out. */
  function ArgError(n: nat, extra: string): (m: string)
    ensures |m| > 14 && m[..14] == "bad argument #"
  {
    "bad argument #" + DecimalText(n) + " (" + extra + ")"
  }

  /** `lua_isboolean(L, n) ? lua_toboolean(L, n) : true`. */
  function BoolOrTrue(a: Arg): (b: bool)
    ensures !b <==> a == Boolean(false)
  {
    if a.Boolean? then a.b else true
  }
}
