// The list of outstanding installments: how a sale fills it and how a month's
// collection empties it.
module Receivables {
  import opened SimTypes

  /** The installments of one phone sold in `month`, in the order they are
      pushed: one of `amount` due in each of the `k` following months. */
  function Plan(month: int, k: nat, amount: int): seq<Receivable>
  {
    if k == 0 then [] else Plan(month, k - 1, amount) + [Receivable(month + k, amount)]
  }

  /** The installments of `count` phones sold in `month`, phone after phone. */
  function Installments(count: nat, month: int, k: nat, amount: int): seq<Receivable>
  {
    if count == 0 then [] else Installments(count - 1, month, k, amount) + Plan(month, k, amount)
  }

  /** Total amount of a list of receivables. */
  function Sum(rs: seq<Receivable>): int
  {
    if rs == [] then 0 else rs[0].amount + Sum(rs[1..])
  }

  /** Total amount of the receivables due in month `m`. */
  function DueSum(rs: seq<Receivable>, m: int): int
  {
    if rs == [] then 0
    else (if rs[0].monthDue == m then rs[0].amount else 0) + DueSum(rs[1..], m)
  }

  /** The receivables not due in month `m`, in their original order. */
  function Outstanding(rs: seq<Receivable>, m: int): seq<Receivable>
  {
    if rs == [] then []
    else (if rs[0].monthDue == m then [] else [rs[0]]) + Outstanding(rs[1..], m)
  }

  lemma {:induction false} SumConcat(a: seq<Receivable>, b: seq<Receivable>)
    ensures Sum(a + b) == Sum(a) + Sum(b)
  {
    if a == [] {
      assert a + b == b;
    } else {
      assert (a + b)[1..] == a[1..] + b;
      SumConcat(a[1..], b);
    }
  }

  lemma {:induction false} DueSumConcat(a: seq<Receivable>, b: seq<Receivable>, m: int)
    ensures DueSum(a + b, m) == DueSum(a, m) + DueSum(b, m)
  {
    if a == [] {
      assert a + b == b;
    } else {
      assert (a + b)[1..] == a[1..] + b;
      DueSumConcat(a[1..], b, m);
    }
  }

  /** One phone's plan: `k` receivables of `amount`, due in months
      `month+1 .. month+k`, exactly one of them in each of those months, in
      that order. */
  lemma PlanShape(month: int, k: nat, amount: int)
    ensures |Plan(month, k, amount)| == k
    ensures forall j :: 0 <= j < k ==> Plan(month, k, amount)[j] == Receivable(month + j + 1, amount)
    ensures Sum(Plan(month, k, amount)) == k * amount
    ensures forall r <- Plan(month, k, amount) :: month < r.monthDue <= month + k && r.amount == amount
    ensures forall d :: month < d <= month + k ==> DueSum(Plan(month, k, amount), d) == amount
  {
    PlanTotal(month, k, amount);
    PlanAt(month, k, amount);
    PlanWindow(month, k, amount);
    forall d | month < d <= month + k
      ensures DueSum(Plan(month, k, amount), d) == amount
    {
      PlanDue(month, k, amount, d);
    }
  }

  lemma {:induction false} PlanTotal(month: int, k: nat, amount: int)
    ensures |Plan(month, k, amount)| == k
    ensures Sum(Plan(month, k, amount)) == k * amount
  {
    if k > 0 {
      PlanTotal(month, k - 1, amount);
      SumConcat(Plan(month, k - 1, amount), [Receivable(month + k, amount)]);
    }
  }

  lemma {:induction false} PlanAt(month: int, k: nat, amount: int)
    ensures |Plan(month, k, amount)| == k
    ensures forall j :: 0 <= j < k ==> Plan(month, k, amount)[j] == Receivable(month + j + 1, amount)
  {
    if k > 0 {
      PlanAt(month, k - 1, amount);
    }
  }

  lemma {:induction false} PlanWindow(month: int, k: nat, amount: int)
    ensures forall r <- Plan(month, k, amount) :: month < r.monthDue <= month + k && r.amount == amount
  {
    if k > 0 {
      PlanWindow(month, k - 1, amount);
    }
  }

  lemma {:induction false} PlanDue(month: int, k: nat, amount: int, d: int)
    requires month < d <= month + k
    ensures DueSum(Plan(month, k, amount), d) == amount
  {
    var p := Plan(month, k - 1, amount);
    var last := [Receivable(month + k, amount)];
    DueSumConcat(p, last, d);
    if d == month + k {
      PlanWindow(month, k - 1, amount);
      DueSumAbsent(p, d);
    } else {
      PlanDue(month, k - 1, amount, d);
    }
  }

  /** A sale of `count` phones in `month` creates `count * k` receivables
      worth `count * k * amount` in all, each of `amount` and due within the
      `k` following months, and in each of those months `count` of them fall
      due (one per phone). */
  lemma InstallmentsShape(count: nat, month: int, k: nat, amount: int)
    ensures |Installments(count, month, k, amount)| == count * k
    ensures forall i :: 0 <= i < |Installments(count, month, k, amount)| ==>
      Installments(count, month, k, amount)[i] == Receivable(month + i % k + 1, amount)
    ensures Sum(Installments(count, month, k, amount)) == count * (k * amount)
    ensures forall r <- Installments(count, month, k, amount) :: month < r.monthDue <= month + k && r.amount == amount
    ensures forall d :: month < d <= month + k ==> DueSum(Installments(count, month, k, amount), d) == count * amount
  {
    InstallmentsTotal(count, month, k, amount);
    InstallmentsAt(count, month, k, amount);
    InstallmentsWindow(count, month, k, amount);
    forall d | month < d <= month + k
      ensures DueSum(Installments(count, month, k, amount), d) == count * amount
    {
      InstallmentsDue(count, month, k, amount, d);
    }
  }

  lemma {:induction false} InstallmentsTotal(count: nat, month: int, k: nat, amount: int)
    ensures |Installments(count, month, k, amount)| == count * k
    ensures Sum(Installments(count, month, k, amount)) == count * (k * amount)
  {
    if count > 0 {
      InstallmentsTotal(count - 1, month, k, amount);
      PlanTotal(month, k, amount);
      SumConcat(Installments(count - 1, month, k, amount), Plan(month, k, amount));
      var ka := k * amount;
      assert count * ka == (count - 1) * ka + ka;
      assert count * k == (count - 1) * k + k;
    }
  }

  /** The installments come phone by phone, each phone's in due order:
      position `i` is due `i % k + 1` months after the sale. */
  lemma {:induction false} InstallmentsAt(count: nat, month: int, k: nat, amount: int)
    ensures |Installments(count, month, k, amount)| == count * k
    ensures forall i :: 0 <= i < |Installments(count, month, k, amount)| ==>
      Installments(count, month, k, amount)[i] == Receivable(month + i % k + 1, amount)
  {
    InstallmentsTotal(count, month, k, amount);
    if count > 0 {
      var front := Installments(count - 1, month, k, amount);
      InstallmentsAt(count - 1, month, k, amount);
      PlanAt(month, k, amount);
      forall i | |front| <= i < count * k
        ensures Installments(count, month, k, amount)[i] == Receivable(month + i % k + 1, amount)
      {
        ModOffset(count - 1, k, i - |front|);
      }
    }
  }

  lemma ModOffset(q: nat, k: nat, j: nat)
    requires j < k
    ensures (q * k + j) % k == j
  {
    var i, d := q * k + j, (q * k + j) / k;
    assert d * k + i % k == i;
    assert (d + 1) * k == d * k + k;
    assert (q + 1) * k == q * k + k;
    CancelFactor(q, d + 1, k);
    CancelFactor(d, q + 1, k);
  }

  lemma {:induction false} InstallmentsWindow(count: nat, month: int, k: nat, amount: int)
    ensures forall r <- Installments(count, month, k, amount) :: month < r.monthDue <= month + k && r.amount == amount
  {
    if count > 0 {
      InstallmentsWindow(count - 1, month, k, amount);
      PlanWindow(month, k, amount);
    }
  }

  lemma {:induction false} InstallmentsDue(count: nat, month: int, k: nat, amount: int, d: int)
    requires month < d <= month + k
    ensures DueSum(Installments(count, month, k, amount), d) == count * amount
  {
    if count > 0 {
      InstallmentsDue(count - 1, month, k, amount, d);
      PlanDue(month, k, amount, d);
      DueSumConcat(Installments(count - 1, month, k, amount), Plan(month, k, amount), d);
    }
  }

  /** Nothing is due in a month no receivable names: the collection takes
      nothing and leaves the list as it was. */
  lemma {:induction false} DueSumAbsent(rs: seq<Receivable>, m: int)
    requires forall r <- rs :: r.monthDue != m
    ensures DueSum(rs, m) == 0
    ensures Outstanding(rs, m) == rs
  {
    if rs != [] {
      assert rs[0] in rs;
      DueSumAbsent(rs[1..], m);
      assert [rs[0]] + rs[1..] == rs;
    }
  }

  /** Collection loses and invents nothing: what is due in `m` plus what is
      left outstanding is everything there was. */
  lemma {:induction false} CollectionPartition(rs: seq<Receivable>, m: int)
    ensures DueSum(rs, m) + Sum(Outstanding(rs, m)) == Sum(rs)
  {
    if rs != [] {
      CollectionPartition(rs[1..], m);
      var head := if rs[0].monthDue == m then [] else [rs[0]];
      SumConcat(head, Outstanding(rs[1..], m));
    }
  }

  /** A receivable is left outstanding exactly when it was there and is not
      due in `m`. */
  lemma {:induction false} OutstandingMembers(rs: seq<Receivable>, m: int)
    ensures forall r :: r in Outstanding(rs, m) <==> r in rs && r.monthDue != m
  {
    if rs != [] {
      OutstandingMembers(rs[1..], m);
      assert rs == [rs[0]] + rs[1..];
    }
  }

  /** One step of a scan from the back of `rs` that removes the receivables
      due in `m`: position `i` is dropped exactly when it is due, and what it
      contributes to the month's collection. */
  lemma BackScanStep(rs: seq<Receivable>, i: int, m: int)
    requires 0 <= i < |rs|
    ensures var cur := rs[..i + 1] + Outstanding(rs[i + 1..], m);
      && cur[i] == rs[i]
      && DueSum(rs[i..], m) == (if rs[i].monthDue == m then rs[i].amount else 0) + DueSum(rs[i + 1..], m)
      && (rs[i].monthDue == m ==> cur[..i] + cur[i + 1..] == rs[..i] + Outstanding(rs[i..], m))
      && (rs[i].monthDue != m ==> cur == rs[..i] + Outstanding(rs[i..], m))
  {
    var cur := rs[..i + 1] + Outstanding(rs[i + 1..], m);
    assert rs[i..][1..] == rs[i + 1..];
    assert rs[..i + 1] == rs[..i] + [rs[i]];
    if rs[i].monthDue == m {
      assert cur[..i] == rs[..i];
      assert cur[i + 1..] == Outstanding(rs[i + 1..], m);
    }
  }

  /** With no negative amounts, a month's collection is never negative. */
  lemma {:induction false} DueSumNonNegative(rs: seq<Receivable>, m: int)
    requires forall r <- rs :: r.amount >= 0
    ensures DueSum(rs, m) >= 0
  {
    if rs != [] {
      assert rs[0] in rs;
      DueSumNonNegative(rs[1..], m);
    }
  }

  /** With no negative amounts, the outstanding total is never negative. */
  lemma {:induction false} SumNonNegative(rs: seq<Receivable>)
    requires forall r <- rs :: r.amount >= 0
    ensures Sum(rs) >= 0
  {
    if rs != [] {
      assert rs[0] in rs;
      SumNonNegative(rs[1..]);
    }
  }
}
