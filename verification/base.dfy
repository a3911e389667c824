/** Shared vocabulary of the model: an optional value, the framework's status
    codes, occurrence counting over event traces, and console key folding. */
module Base {

  /** A value that may be absent: stands for a nullable pointer, an optional
      command-line setting, or a variable the program leaves unassigned. */
  datatype Option<+T> = None | Some(value: T) {

    /** The held value, or `default` when there is none. */
    function GetOr(default: T): T {
      match this
      case Some(v) => v
      case None => default
    }
  }

  /** The framework's `uint32_t` result codes, as far as the demos tell them
      apart. Their numeric values are defined by the framework's headers and
      play no role in the demos' logic. */
  datatype Status = ErrorNone | ErrorUnavailable | ErrorNotExist | ErrorOther(code: nat)

  /** Number of occurrences of `x` in `s`. */
  function Count<T(==)>(s: seq<T>, x: T): (n: nat)
    ensures n <= |s|
  {
    if |s| == 0 then 0
    else (if s[0] == x then 1 else 0) + Count(s[1..], x)
  }

  /** `x` does not occur exactly when it is counted zero times. */
  lemma {:induction false} CountZero<T>(s: seq<T>, x: T)
    ensures Count(s, x) == 0 <==> x !in s
    decreases |s|
  {
    if |s| > 0 {
      CountZero(s[1..], x);
      assert s == [s[0]] + s[1..];
    }
  }

  lemma {:induction false} CountAppend<T>(a: seq<T>, b: seq<T>, x: T)
    ensures Count(a + b, x) == Count(a, x) + Count(b, x)
    decreases |a|
  {
    if |a| == 0 {
      assert a + b == b;
    } else {
      assert (a + b)[1..] == a[1..] + b;
      CountAppend(a[1..], b, x);
    }
  }

  /** `toupper` on the ASCII letters; every other character is unchanged. */
  function Upper(c: char): (u: char)
    ensures 'a' <= c <= 'z' ==> 'A' <= u <= 'Z'
    ensures !('a' <= c <= 'z') ==> u == c
  {
    if 'a' <= c <= 'z' then (c as int - 32) as char else c
  }

  /** The keys a `do { ... } while (key != stop)` menu loop acts on: every key
      up to, but not including, the first `stop`. */
  function Before(keys: seq<char>, stop: char): (pre: seq<char>)
    ensures pre <= keys
    ensures stop !in pre
    ensures |pre| < |keys| ==> keys[|pre|] == stop
  {
    if |keys| == 0 then []
    else if keys[0] == stop then []
    else [keys[0]] + Before(keys[1..], stop)
  }
}
