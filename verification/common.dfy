/** Shared vocabulary for the model: Java's nullable references, the
    exceptions the modelled code can raise, and the few list and string
    primitives of java.util / java.lang that the core relies on. */
module Common {

  /** A Java reference: `None` is `null`. */
  datatype Option<+T> = None | Some(value: T)

  /** The exceptions the modelled code raises or catches. */
  datatype Exception =
    | NullPointer          // java.lang.NullPointerException
    | IndexOutOfBounds     // java.lang.IndexOutOfBoundsException (also StringIndexOutOfBounds)
    | NoSuchMethod         // a missing accessor, rethrown as RuntimeException
    | NoQuery              // RuntimeException "Set QueryObject before calling open."
    | Sql                  // java.sql.SQLException (missing column, failed conversion, failed query)
    | Invocation           // a reflective accessor call that failed, rethrown as RuntimeException

  datatype Result<+T> = Ok(value: T) | Err(error: Exception)

  /** A statement sequence that may stop part-way: the state it leaves behind
      and the exception it stopped with, if any. */
  datatype Outcome<+S> = Outcome(state: S, fault: Option<Exception>)

  /** `List.indexOf`: the first position holding `x`, or -1. */
  function IndexOf<T(==)>(s: seq<T>, x: T): (r: int)
    ensures -1 <= r < |s|
    ensures r == -1 <==> x !in s
    ensures 0 <= r ==> s[r] == x && x !in s[..r]
  {
    if |s| == 0 then -1
    else if s[0] == x then 0
    else
      var k := IndexOf(s[1..], x);
      assert s[1..][..if k < 0 then 0 else k] == s[1..if k < 0 then 1 else k + 1];
      if k < 0 then -1 else k + 1
  }

  /** `List.remove(Object)`: drops the first occurrence of `x`, if any. */
  function RemoveFirst<T(==)>(s: seq<T>, x: T): (r: seq<T>)
    ensures x in s ==> multiset(r) == multiset(s) - multiset{x} && |r| == |s| - 1
    ensures x !in s ==> r == s
  {
    var k := IndexOf(s, x);
    if k < 0 then s
    else
      assert s == s[..k] + [s[k]] + s[k + 1..];
      s[..k] + s[k + 1..]
  }

  /** `s.trim().isEmpty()`: every character is at most U+0020. */
  predicate Blank(s: string) {
    forall i :: 0 <= i < |s| ==> s[i] <= ' '
  }

  /** `Character.toUpperCase` restricted to ASCII. */
  function UpperChar(c: char): (u: char)
    ensures 'a' <= c <= 'z' ==> 'A' <= u <= 'Z' && u as int == c as int - 32
    ensures !('a' <= c <= 'z') ==> u == c
  {
    if 'a' <= c <= 'z' then (c as int - 32) as char else c
  }

  /** `String.toUpperCase` restricted to ASCII. */
  function Upper(s: string): (u: string)
    ensures |u| == |s|
    ensures forall i :: 0 <= i < |s| ==> u[i] == UpperChar(s[i])
  {
    seq(|s|, i requires 0 <= i < |s| => UpperChar(s[i]))
  }
}
