/** modeKey: the commonest op, whatever order the counts are visited in. */
module ModeKeys {
  import opened Detection

  lemma {:induction false} StringLessTotal(a: string, b: string)
    ensures a == b || StringLess(a, b) || StringLess(b, a)
    ensures !(StringLess(a, b) && StringLess(b, a)) && !StringLess(a, a)
  {
    if a != [] && b != [] {
      StringLessTotal(a[1..], b[1..]);
      assert a == [a[0]] + a[1..] && b == [b[0]] + b[1..];
    }
    if a != [] {
      StringLessTotal(a[1..], a[1..]);
    }
  }

  lemma {:induction false} StringLessTransitive(a: string, b: string, c: string)
    requires StringLess(a, b) && StringLess(b, c)
    ensures StringLess(a, c)
  {
    if a != [] && a[0] == b[0] == c[0] {
      StringLessTransitive(a[1..], b[1..], c[1..]);
    }
  }

  lemma {:induction false} BeatsOrder(ops: multiset<string>, a: string, b: string, c: string)
    ensures a != b ==> Beats(ops, a, b) || Beats(ops, b, a)
    ensures !(Beats(ops, a, b) && Beats(ops, b, a))
    ensures Beats(ops, a, b) && Beats(ops, b, c) ==> Beats(ops, a, c)
  {
    StringLessTotal(a, b);
    if StringLess(a, b) && StringLess(b, c) {
      StringLessTransitive(a, b, c);
    }
  }

  /** best was seen, and beats every other op seen. */
  ghost predicate IsMode(ops: seq<string>, best: string) {
    best in ops && forall o :: o in ops && o != best ==> Beats(multiset(ops), best, o)
  }

  lemma {:induction false} ModePrefix(ops: seq<string>, n: nat)
    requires 0 < n <= |ops|
    ensures Mode(ops, n) in ops
    ensures forall i :: 0 <= i < n && ops[i] != Mode(ops, n) ==> Beats(multiset(ops), Mode(ops, n), ops[i])
  {
    hide Beats;
    if n > 1 {
      ModePrefix(ops, n - 1);
      var best, next := Mode(ops, n - 1), ops[n - 1];
      forall i | 0 <= i < n && ops[i] != Mode(ops, n) ensures Beats(multiset(ops), Mode(ops, n), ops[i]) {
        BeatsOrder(multiset(ops), next, best, ops[i]);
      }
    }
  }

  lemma {:induction false} ModeIs(ops: seq<string>)
    requires ops != []
    ensures IsMode(ops, Mode(ops, |ops|))
  {
    hide Beats, Mode;
    ModePrefix(ops, |ops|);
  }

  lemma {:induction false} ModeUnique(ops: seq<string>, a: string, b: string)
    requires IsMode(ops, a) && IsMode(ops, b)
    ensures a == b
  {
    hide Beats;
    BeatsOrder(multiset(ops), a, b, a);
  }

  /** The key of largest count, the smallest one on a tie. */
  method ModeKey(counts: map<string, nat>) returns (best: string)
    ensures counts == map[] ==> best == ""
    ensures counts != map[] ==> best in counts
    ensures forall o :: o in counts && o != best ==>
      counts[best] > counts[o] || (counts[best] == counts[o] && StringLess(best, o))
  {
    best := "";
    var bn: int := -1;
    var remaining := counts.Keys;
    while remaining != {}
      invariant remaining <= counts.Keys
      invariant bn == -1 ==> best == "" && remaining == counts.Keys
      invariant bn >= 0 ==> best in counts && best !in remaining && bn == counts[best]
      invariant bn >= -1
      invariant forall o :: o in counts && o !in remaining && o != best ==>
        bn > counts[o] || (bn == counts[o] && StringLess(best, o))
      decreases |remaining|
    {
      hide StringLess;
      var k :| k in remaining;
      var n := counts[k];
      remaining := remaining - {k};
      StringLessTotal(k, best);
      if n > bn || (n == bn && StringLess(k, best)) {
        forall o | o in counts && o !in remaining && o != k
          ensures n > counts[o] || (n == counts[o] && StringLess(k, o))
        {
          if n == bn == counts[o] && o != best {
            StringLessTransitive(k, best, o);
          }
        }
        best, bn := k, n;
      }
    }
  }

  /** ops[f.op]++ for every flag, then modeKey. */
  method Commonest(ops: seq<string>) returns (best: string)
    ensures best == Mode(ops, |ops|)
  {
    var counts: map<string, nat> := map[];
    for i := 0 to |ops|
      invariant forall o :: o in counts <==> o in ops[..i]
      invariant forall o :: o in counts ==> counts[o] == multiset(ops[..i])[o]
    {
      var o := ops[i];
      assert ops[..i + 1] == ops[..i] + [o];
      var n := if o in counts then counts[o] else 0;
      assert o !in counts ==> multiset(ops[..i])[o] == 0;
      counts := counts[o := n + 1];
    }
    assert ops[..|ops|] == ops;
    best := ModeKey(counts);
    Counted(ops, counts, best);
  }

  lemma {:induction false} Counted(ops: seq<string>, counts: map<string, nat>, best: string)
    requires forall o :: o in counts <==> o in ops
    requires forall o :: o in counts ==> counts[o] == multiset(ops)[o]
    requires if counts == map[] then best == "" else best in counts
    requires forall o :: o in counts && o != best ==>
      counts[best] > counts[o] || (counts[best] == counts[o] && StringLess(best, o))
    ensures best == Mode(ops, |ops|)
  {
    hide StringLess;
    if ops != [] {
      assert ops[0] in counts;
      ModeIs(ops);
      ModeUnique(ops, best, Mode(ops, |ops|));
    } else {
      assert counts == map[];
    }
  }
}
