/** Decoded JSON values as Python's `json.loads` hands them to the cleaner,
    with the two Python operations the cleaner applies to them: `dict.get`
    and `str()`. */
module Json {
  import opened Text

  /** A decoded JSON value: `null`, booleans, integers, other numbers, strings,
      arrays and objects. */
  datatype Value =
    | Null
    | Bool(b: bool)
    | Int(i: int)
    | Float(x: real)
    | Str(s: string)
    | Array(items: seq<Value>)
    | Object(fields: map<string, Value>)

  /** `item.get(key)` on a dict: the value under `key`, or None (JSON null)
      when the key is absent.  A key present with value null reads the same. */
  function Get(fields: map<string, Value>, key: string): (v: Value)
    ensures key !in fields ==> v == Null
    ensures key in fields ==> v == fields[key]
  {
    if key in fields then fields[key] else Null
  }

  /** Python's `str(n)` for an integer: optional minus sign, then the decimal
      digits without leading zeros. */
  function IntText(n: int): string {
    if n < 0 then "-" + Decimal(-n) else Decimal(n)
  }

  /** Python's `str(v)`.  Strings are themselves, `True`/`False`, integers in
      decimal, `None` for null; floats, lists and dicts print their `repr`,
      which `repr` supplies. */
  function PyStr(v: Value, repr: Value -> string): string {
    match v
    case Null => "None"
    case Bool(b) => if b then "True" else "False"
    case Int(i) => IntText(i)
    case Str(s) => s
    case _ => repr(v)
  }

  /** Python's whitespace for `str.strip()`: the characters `str.isspace`
      accepts. */
  predicate IsPySpace(c: char) {
    || c == ' ' || c == '\t' || c == '\n' || c == '\r'
    || c == '\U{000B}' || c == '\U{000C}'
    || ('\U{001C}' <= c <= '\U{001F}')
    || c == '\U{0085}' || c == '\U{00A0}' || c == '\U{1680}'
    || ('\U{2000}' <= c <= '\U{200A}')
    || c == '\U{2028}' || c == '\U{2029}' || c == '\U{202F}'
    || c == '\U{205F}' || c == '\U{3000}'
  }

  /** Python's `s.strip()`. */
  function Strip(s: string): string {
    Trim(s, IsPySpace)
  }
}
