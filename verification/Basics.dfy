/** Datatypes shared by the models. */
module Basics {

  datatype Option<+T> = None | Some(value: T)

  const TWO63 := 0x8000_0000_0000_0000
  const TWO64 := 0x1_0000_0000_0000_0000
  const INT64_MIN := -TWO63
  const INT64_MAX := TWO63 - 1

  function Min(a: nat, b: nat): nat { if a <= b then a else b }

  function Max(a: nat, b: nat): nat { if a <= b then b else a }

  /** What the cancellation token and the clock say when they are consulted. */
  datatype Signal = Quiet | CancelRequested | TimeExpired

  /** How far a flow query got. */
  datatype Completion = Complete | Limited | Timeout | Canceled | Unknown

  /** The decimal spelling of a number. */
  function Digits(n: nat): (s: string)
    ensures 1 <= |s| <= n / 10 + 1
  {
    if n < 10 then ['0' + n as char] else Digits(n / 10) + ['0' + (n % 10) as char]
  }

  lemma {:induction false} DigitsInjective(a: nat, b: nat)
    requires Digits(a) == Digits(b)
    ensures a == b
  {
    assert Digits(a)[|Digits(a)| - 1] == '0' + (a % 10) as char;
    assert Digits(b)[|Digits(b)| - 1] == '0' + (b % 10) as char;
    if a >= 10 && b >= 10 {
      assert Digits(a / 10) == Digits(a)[..|Digits(a)| - 1];
      assert Digits(b / 10) == Digits(b)[..|Digits(b)| - 1];
      DigitsInjective(a / 10, b / 10);
    }
  }

  ghost predicate Distinct<T>(s: seq<T>)
  {
    forall i, j | 0 <= i < j < |s| :: s[i] != s[j]
  }

  lemma {:induction false} SubsetSize<T>(a: set<T>, b: set<T>)
    requires a <= b
    ensures |a| <= |b|
  {
    if a != {} {
      var x :| x in a;
      SubsetSize(a - {x}, b - {x});
    }
  }

  function Members<T(!new)>(s: seq<T>): (m: set<T>)
    ensures forall x :: x in m <==> x in s
    ensures |m| <= |s|
  {
    if s == [] then {} else Members(s[..|s| - 1]) + {s[|s| - 1]}
  }

  lemma {:induction false} MembersCount<T(!new)>(s: seq<T>)
    requires Distinct(s)
    ensures |Members(s)| == |s|
  {
    if s != [] {
      MembersCount(s[..|s| - 1]);
    }
  }

  lemma DistinctAmong<T(!new)>(s: seq<T>, t: seq<T>)
    requires (forall x :: x in s ==> x in t) && Distinct(s)
    ensures |s| <= |t|
  {
    MembersCount(s);
    SubsetSize(Members(s), Members(t));
  }
}
