/**
 * Wrappers and the crash model shared by the store modules. A durable operation is a method that asks
 * `Survives` after each of its file steps; a caller that is not risky gets the uninterrupted run. An
 * exception of the source is the outcome `Refused` or the option `None`, so that every error path is part
 * of the contract. The rest are small facts about sequences and sets.
 */
module Common {

  datatype Option<+T> = None | Some(value: T) {
    function GetOr(default: T): T {
      match this
      case Some(v) => v
      case None => default
    }
  }

  /** How a durable operation ends: it finishes, it refuses by raising, or the process dies part-way. */
  datatype Outcome = Done | Refused | Crashed

  /** One opportunity to die. A caller that is not `risky` models an uninterrupted process. */
  method Survives(risky: bool) returns (up: bool)
    ensures !risky ==> up
  {
    up := true;
    if risky {
      up := *;
    }
  }

  lemma TakeOneMore<T>(s: seq<T>, k: nat)
    requires k < |s|
    ensures s[..k + 1] == s[..k] + [s[k]]
  {
  }

  lemma HeadAndTail<T>(s: seq<T>)
    requires s != []
    ensures s == [s[0]] + s[1..]
  {
  }

  /** A SHA-256 digest as text: 64 lower-case hexadecimal digits. */
  predicate IsHex64(s: string) {
    |s| == 64 && forall i :: 0 <= i < 64 ==> '0' <= s[i] <= '9' || 'a' <= s[i] <= 'f'
  }

  /** The numbers below `n`. */
  function Below(n: nat): (s: set<nat>)
    ensures forall i: nat :: i in s <==> i < n
  {
    if n == 0 then {} else Below(n - 1) + {n - 1}
  }

  lemma {:induction false} BelowCount(n: nat)
    ensures |Below(n)| == n
  {
    if n > 0 {
      BelowCount(n - 1);
    }
  }
}
