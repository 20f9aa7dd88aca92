// What several of the models use: an optional value, and facts about sequences
// of anything.
module Common {
  datatype Option<T> = None | Some(value: T)

  // All but the first, of nothing nothing.
  function Rest<T>(s: seq<T>): seq<T> { if s == [] then [] else s[1..] }

  lemma {:induction false} HeadAndTail<T>(s: seq<T>)
    requires s != []
    ensures s == [s[0]] + s[1..]
  {
  }

  lemma {:induction false} Regroup<T>(a: seq<T>, b: seq<T>, c: seq<T>)
    ensures a + b + c == a + (b + c)
  {
  }

  lemma {:induction false} UpdateSame<T>(s: seq<T>, k: nat)
    requires k < |s|
    ensures s[k := s[k]] == s
  {
  }

  lemma {:induction false} UpdateOfTwo<T>(a: T, b: T, c: T)
    ensures [a, b][0 := c] == [c, b] && [a, b][1 := c] == [a, c]
  {
  }

  lemma {:induction false} UpdateTwice<T>(s: seq<T>, k: nat, v: T, w: T)
    requires k < |s|
    ensures s[k := v][k := w] == s[k := w]
  {
  }
}
