/** Texts as lists of lexical marks, and the replacement of a mark's first occurrence. */
module Texts {

  datatype List<+M> = End | Then(head: M, tail: List<M>)

  function Size<M>(text: List<M>): nat
  {
    match text
    case End => 0
    case Then(_, tail) => 1 + Size(tail)
  }

  function Append<M>(a: List<M>, b: List<M>): List<M>
  {
    match a
    case End => b
    case Then(mark, rest) => Then(mark, Append(rest, b))
  }

  function Count<M(==)>(text: List<M>, x: M): nat
  {
    match text
    case End => 0
    case Then(mark, rest) => (if mark == x then 1 else 0) + Count(rest, x)
  }

  /** The text with the first occurrence of a mark exchanged. */
  function Replace<M(==)>(text: List<M>, x: M, y: M): List<M>
  {
    match text
    case End => End
    case Then(mark, rest) => if mark == x then Then(y, rest) else Then(mark, Replace(rest, x, y))
  }

  lemma {:induction false} CountAppend<M>(a: List<M>, b: List<M>, x: M)
    ensures Count(Append(a, b), x) == Count(a, x) + Count(b, x)
  {
    if a.Then? {
      CountAppend(a.tail, b, x);
    }
  }

  /** The first occurrence is in the first text if there is one. */
  lemma {:induction false} ReplaceAppend<M>(a: List<M>, b: List<M>, x: M, y: M)
    ensures Replace(Append(a, b), x, y)
            == if Count(a, x) > 0 then Append(Replace(a, x, y), b) else Append(a, Replace(b, x, y))
  {
    if a.Then? {
      ReplaceAppend(a.tail, b, x, y);
    }
  }

  lemma {:induction false} ReplaceSize<M>(a: List<M>, x: M, y: M)
    ensures Size(Replace(a, x, y)) == Size(a)
  {
    if a.Then? {
      ReplaceSize(a.tail, x, y);
    }
  }

  lemma {:induction false} ReplaceCount<M>(a: List<M>, x: M, y: M)
    requires Count(a, x) > 0 && x != y
    ensures Count(Replace(a, x, y), x) == Count(a, x) - 1
  {
    if a.head != x {
      ReplaceCount(a.tail, x, y);
    }
  }

  lemma {:induction false} AppendInjective<M>(a: List<M>, x: List<M>, b: List<M>, y: List<M>)
    requires Append(a, x) == Append(b, y) && Size(a) == Size(b)
    ensures a == b && x == y
  {
    if a.Then? {
      AppendInjective(a.tail, x, b.tail, y);
    }
  }
}
