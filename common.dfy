/** Shared vocabulary of the model: optional values, the ASCII case mapping
    behind .NET's ordinal case-insensitive comparison and `ToLower`, string
    prefixes, text processors and the identity of a loaded assembly. */
module Common {

  datatype Option<+T> = None | Some(value: T)

  /** A `Func<string, string>` text processor: `None` stands for a call that
      throws. */
  type Processor = string -> Option<string>

  /** What the model needs of a `System.Reflection.Assembly`: its full name
      (`Assembly.FullName`, which can be null) and the directory of its
      location (`Path.GetDirectoryName(assembly.Location)`, which can be null). */
  datatype Assembly = Assembly(fullName: Option<string>, directory: Option<string>)

  /** Applies `f` to every character of `s`, as `string.Replace(char, char)`
      and the invariant-culture case conversions do. */
  function MapChars(f: char -> char, s: string): (r: string)
    ensures |r| == |s|
    ensures forall i :: 0 <= i < |s| ==> r[i] == f(s[i])
  {
    if s == [] then [] else [f(s[0])] + MapChars(f, s[1..])
  }

  /** Mapping each character by an idempotent character map is idempotent. */
  lemma {:induction false} MapCharsIdempotent(f: char -> char, s: string)
    requires forall c :: f(f(c)) == f(c)
    ensures MapChars(f, MapChars(f, s)) == MapChars(f, s)
  {
    if s != [] {
      MapCharsIdempotent(f, s[1..]);
    }
  }

  /** Mapping characters distributes over concatenation. */
  lemma {:induction false} MapCharsAppend(f: char -> char, s: string, t: string)
    ensures MapChars(f, s + t) == MapChars(f, s) + MapChars(f, t)
  {
    assert forall i :: 0 <= i < |s + t| ==> MapChars(f, s + t)[i] == (MapChars(f, s) + MapChars(f, t))[i];
  }

  function UpperChar(c: char): char {
    if 'a' <= c <= 'z' then (c as int - 32) as char else c
  }

  function LowerChar(c: char): char {
    if 'A' <= c <= 'Z' then (c as int + 32) as char else c
  }

  /** The case fold used for `StringComparer.OrdinalIgnoreCase` keys. */
  function Upper(s: string): string {
    MapChars(UpperChar, s)
  }

  /** `string.ToLower()`, restricted to ASCII letters. */
  function Lower(s: string): string {
    MapChars(LowerChar, s)
  }

  /** Ordinal case-insensitive equality of two strings. */
  predicate EqualsIgnoreCase(a: string, b: string) {
    Upper(a) == Upper(b)
  }

  /** `string.Equals(a, b, StringComparison.OrdinalIgnoreCase)` on strings that
      may be null: two nulls are equal, a null and a non-null string are not. */
  predicate NullableEqualsIgnoreCase(a: Option<string>, b: Option<string>) {
    match (a, b)
    case (None, None) => true
    case (Some(x), Some(y)) => EqualsIgnoreCase(x, y)
    case _ => false
  }

  /** Two strings are equal ignoring ASCII case exactly when they have the
      same length and agree character by character up to case. */
  lemma EqualsIgnoreCaseCharwise(a: string, b: string)
    ensures EqualsIgnoreCase(a, b) <==>
            |a| == |b| && forall i :: 0 <= i < |a| ==> UpperChar(a[i]) == UpperChar(b[i])
  {
    if |a| == |b| && forall i :: 0 <= i < |a| ==> UpperChar(a[i]) == UpperChar(b[i]) {
      assert forall i :: 0 <= i < |a| ==> Upper(a)[i] == Upper(b)[i];
    }
  }

  predicate StartsWith(s: string, prefix: string) {
    prefix <= s
  }
}
