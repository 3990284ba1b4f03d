/** What several components share. */
module Common {

  datatype Option<+T> = None | Some(value: T)

  ghost predicate Distinct<T>(s: seq<T>) {
    forall i, j :: 0 <= i < j < |s| ==> s[i] != s[j]
  }

  lemma Reassociate<T>(a: seq<T>, b: seq<T>, c: seq<T>)
    ensures (a + b) + c == a + (b + c)
  {
  }

  lemma HeadAndTail<T>(a: seq<T>, b: seq<T>)
    requires b != []
    ensures (a + [b[0]]) + b[1..] == a + b
  {
  }

  /** The list without its first x. */
  function Without<T(==)>(s: seq<T>, x: T): seq<T> {
    if s == [] then [] else if s[0] == x then s[1..] else [s[0]] + Without(s[1..], x)
  }

  /** Cutting out the first x is what Without does. */
  lemma {:induction false} CutIsWithout<T>(s: seq<T>, x: T, i: nat)
    requires i < |s| && s[i] == x && forall j :: 0 <= j < i ==> s[j] != x
    ensures s[..i] + s[i + 1..] == Without(s, x)
  {
    if i > 0 {
      CutIsWithout(s[1..], x, i - 1);
      assert s[..i] + s[i + 1..] == [s[0]] + (s[1..][..i - 1] + s[1..][i..]);
    }
  }

  lemma {:induction false} WithoutIs<T>(s: seq<T>, x: T)
    requires Distinct(s)
    ensures Distinct(Without(s, x))
    ensures forall y :: y in Without(s, x) <==> y in s && y != x
  {
    if s != [] {
      assert s == [s[0]] + s[1..];
      if s[0] != x {
        WithoutIs(s[1..], x);
        var rest := Without(s[1..], x);
        assert s[0] !in rest;
        assert forall j :: 0 < j <= |rest| ==> ([s[0]] + rest)[j] in rest;
      }
    }
  }

  /** Nothing is in two places. */
  ghost predicate Once<T>(queues: seq<seq<T>>) {
    forall i, j, p, q ::
      (0 <= i < |queues| && 0 <= j < |queues| && 0 <= p < |queues[i]| && 0 <= q < |queues[j]| && queues[i][p] == queues[j][q])
        ==> i == j && p == q
  }

  /** What is in no queue can be added. */
  lemma OnceAdd<T>(queues: seq<seq<T>>, i: nat, x: T)
    requires i < |queues| && Once(queues)
    requires forall j, p :: 0 <= j < |queues| && 0 <= p < |queues[j]| ==> queues[j][p] != x
    ensures Once(queues[i := queues[i] + [x]])
  {
  }

  /** Without its first element, a queue is as it was from the second on. */
  lemma OnceTake<T>(queues: seq<seq<T>>, i: nat)
    requires i < |queues| && queues[i] != [] && Once(queues)
    ensures var queues' := queues[i := queues[i][1..]];
            && Once(queues')
            && forall j, p :: 0 <= j < |queues'| && 0 <= p < |queues'[j]| ==> queues'[j][p] != queues[i][0]
  {
    var queues' := queues[i := queues[i][1..]];
    forall j, p | 0 <= j < |queues'| && 0 <= p < |queues'[j]|
      ensures queues'[j][p] == queues[j][if j == i then p + 1 else p] != queues[i][0]
    {
    }
  }

  /** 0 to m - 1 */
  ghost function Below(m: nat): (all: set<nat>)
    ensures forall x: nat :: x in all <==> x < m
  {
    if m == 0 then {} else Below(m - 1) + {m - 1}
  }

  lemma {:induction false} BelowSize(m: nat)
    ensures |Below(m)| == m
  {
    if m > 0 {
      BelowSize(m - 1);
    }
  }

  function Pow2(n: nat): nat {
    if n == 0 then 1 else 2 * Pow2(n - 1)
  }

  lemma Pow2Plus8(n: nat)
    ensures Pow2(n + 8) == 256 * Pow2(n)
  {
    assert Pow2(n + 4) == 16 * Pow2(n) by { assert Pow2(n + 2) == 4 * Pow2(n); }
    assert Pow2(n + 8) == 16 * Pow2(n + 4) by { assert Pow2(n + 6) == 4 * Pow2(n + 4); }
  }

  lemma Powers()
    ensures Pow2(31) == 0x8000_0000 && Pow2(32) == 0x1_0000_0000 && Pow2(33) == 0x2_0000_0000
    ensures Pow2(53) == 0x20_0000_0000_0000 && Pow2(63) == 0x8000_0000_0000_0000 && Pow2(64) == 0x1_0000_0000_0000_0000
  {
    Pow2Plus8(0);
    Pow2Plus8(8);
    Pow2Plus8(16);
    Pow2Plus8(24);
    Pow2Plus8(32);
    Pow2Plus8(40);
    Pow2Plus8(48);
    Pow2Plus8(56);
    Pow2Plus8(45);
    Pow2Plus8(37);
    Pow2Plus8(29);
    assert Pow2(31) == 4 * Pow2(29);
  }
}
