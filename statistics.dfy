/**
 * The statistics engine of main.js: `aggregateEmployeeData`, the copy sorted by
 * workload and `getEmployeeStatistics`. The clock read by `new Date()` is the
 * parameter `today`.
 */
module Statistics {

  import opened Employees
  import opened Numeric

  /** The workload of every record, in input order. */
  function Workloads(es: seq<Employee>): (ws: seq<int>)
    ensures |ws| == |es|
    ensures forall i :: 0 <= i < |es| ==> ws[i] == es[i].workload
  {
    if es == [] then [] else Workloads(es[..|es| - 1]) + [es[|es| - 1].workload]
  }

  /** The age of every record at `today`, in input order. */
  function Ages(es: seq<Employee>, today: real): (ages: seq<real>)
    ensures |ages| == |es|
    ensures forall i :: 0 <= i < |es| ==> ages[i] == AgeFromBirthdate(es[i].birthdate, today)
  {
    if es == [] then [] else Ages(es[..|es| - 1], today) + [AgeFromBirthdate(es[|es| - 1].birthdate, today)]
  }

  /** The number of records whose workload is exactly `w`. */
  function CountWorkload(es: seq<Employee>, w: int): (n: nat)
    ensures n <= |es|
  {
    if es == [] then 0
    else CountWorkload(es[..|es| - 1], w) + (if es[|es| - 1].workload == w then 1 else 0)
  }

  /** The workloads of the records whose gender is "female", in input order. */
  function WomenWorkloads(es: seq<Employee>): (ws: seq<int>)
    ensures |ws| <= |es|
  {
    if es == [] then []
    else WomenWorkloads(es[..|es| - 1]) + (if es[|es| - 1].gender == "female" then [es[|es| - 1].workload] else [])
  }

  /**
   * When every record is female, the women's workloads are all the workloads; when
   * none is, they are empty.
   */
  lemma {:induction false} WomenWorkloadsAllOrNone(es: seq<Employee>)
    ensures (forall i :: 0 <= i < |es| ==> es[i].gender == "female") ==> WomenWorkloads(es) == Workloads(es)
    ensures (forall i :: 0 <= i < |es| ==> es[i].gender != "female") ==> WomenWorkloads(es) == []
  {
    if es != [] {
      var init := es[..|es| - 1];
      WomenWorkloadsAllOrNone(init);
      assert forall i :: 0 <= i < |init| ==> init[i] == es[i];
    }
  }

  /** The positions of the records whose gender is "female", ascending. */
  function FemaleIndices(es: seq<Employee>): (idx: seq<nat>)
    ensures forall k :: 0 <= k < |idx| ==> idx[k] < |es| && es[idx[k]].gender == "female"
    ensures forall k, l :: 0 <= k < l < |idx| ==> idx[k] < idx[l]
    ensures forall i :: 0 <= i < |es| && es[i].gender == "female" ==> i in idx
  {
    if es == [] then []
    else
      var init := FemaleIndices(es[..|es| - 1]);
      if es[|es| - 1].gender == "female" then init + [|es| - 1] else init
  }

  /**
   * `womenWorkloads` is exactly the subsequence of workloads taken at the female
   * records, in input order.
   */
  lemma {:induction false} WomenWorkloadsAreFemaleSubsequence(es: seq<Employee>)
    ensures |WomenWorkloads(es)| == |FemaleIndices(es)|
    ensures forall k :: 0 <= k < |FemaleIndices(es)| ==>
              WomenWorkloads(es)[k] == es[FemaleIndices(es)[k]].workload
  {
    if es != [] {
      var n := |es| - 1;
      var init := es[..n];
      var ws, idx := WomenWorkloads(es), FemaleIndices(es);
      var ws0, idx0 := WomenWorkloads(init), FemaleIndices(init);
      WomenWorkloadsAreFemaleSubsequence(init);
      if es[n].gender == "female" {
        assert ws == ws0 + [es[n].workload] && idx == idx0 + [n];
      } else {
        assert ws == ws0 && idx == idx0;
      }
      forall k | 0 <= k < |idx| ensures ws[k] == es[idx[k]].workload {
        if k < |idx0| {
          assert es[idx0[k]] == init[idx0[k]];
        }
      }
    }
  }

  /** Each counter equals the number of times its workload occurs among all workloads. */
  lemma {:induction false} CountIsMultiplicity(es: seq<Employee>, w: int)
    ensures CountWorkload(es, w) == multiset(Workloads(es))[w]
  {
    if es != [] {
      var init := es[..|es| - 1];
      CountIsMultiplicity(init, w);
      assert Workloads(es) == Workloads(init) + [es[|es| - 1].workload];
    }
  }

  /** The four counters together. */
  function CounterTotal(es: seq<Employee>): nat {
    CountWorkload(es, 10) + CountWorkload(es, 20) + CountWorkload(es, 30) + CountWorkload(es, 40)
  }

  /**
   * A record with a workload outside {10, 20, 30, 40} increments no counter, so the
   * counters add up to at most the number of records, and to exactly that number
   * precisely when every workload is one of the four.
   */
  lemma {:induction false} CountersAccountForRecords(es: seq<Employee>)
    ensures CounterTotal(es) <= |es|
    ensures CounterTotal(es) == |es| <==> forall i :: 0 <= i < |es| ==> es[i].workload in WORKLOADS
  {
    if es != [] {
      var init := es[..|es| - 1];
      CountersAccountForRecords(init);
      assert forall i :: 0 <= i < |init| ==> init[i] == es[i];
    }
  }

  /** What one pass over the records collects (main.js:199-207). */
  datatype Aggregate = Aggregate(
    workload10: nat, workload20: nat, workload30: nat, workload40: nat,
    workloads: seq<int>, womenWorkloads: seq<int>, ages: seq<real>)

  /**
   * `aggregateEmployeeData(employees)`: one pass that counts the four workloads and
   * collects all workloads, the women's workloads and the ages at `today`.
   */
  method AggregateEmployeeData(employees: seq<Employee>, today: real) returns (agg: Aggregate)
    ensures agg.workload10 == CountWorkload(employees, 10)
    ensures agg.workload20 == CountWorkload(employees, 20)
    ensures agg.workload30 == CountWorkload(employees, 30)
    ensures agg.workload40 == CountWorkload(employees, 40)
    ensures agg.workloads == Workloads(employees)
    ensures agg.womenWorkloads == WomenWorkloads(employees)
    ensures agg.ages == Ages(employees, today)
  {
    var workload10, workload20, workload30, workload40 := 0, 0, 0, 0;
    var workloads: seq<int> := [];
    var womenWorkloads: seq<int> := [];
    var ages: seq<real> := [];
    for i := 0 to |employees|
      invariant workload10 == CountWorkload(employees[..i], 10)
      invariant workload20 == CountWorkload(employees[..i], 20)
      invariant workload30 == CountWorkload(employees[..i], 30)
      invariant workload40 == CountWorkload(employees[..i], 40)
      invariant workloads == Workloads(employees[..i])
      invariant womenWorkloads == WomenWorkloads(employees[..i])
      invariant ages == Ages(employees[..i], today)
    {
      var emp := employees[i];
      assert employees[..i + 1][..i] == employees[..i];
      if emp.workload == 10 { workload10 := workload10 + 1; }
      if emp.workload == 20 { workload20 := workload20 + 1; }
      if emp.workload == 30 { workload30 := workload30 + 1; }
      if emp.workload == 40 { workload40 := workload40 + 1; }
      workloads := workloads + [emp.workload];
      if emp.gender == "female" {
        womenWorkloads := womenWorkloads + [emp.workload];
      }
      ages := ages + [AgeFromBirthdate(emp.birthdate, today)];
    }
    assert employees[..|employees|] == employees;
    agg := Aggregate(workload10, workload20, workload30, workload40, workloads, womenWorkloads, ages);
  }

  /** Ascending by workload, as `sort((a, b) => a.workload - b.workload)` leaves the records. */
  predicate SortedByWorkload(es: seq<Employee>) {
    forall i, j :: 0 <= i < j < |es| ==> es[i].workload <= es[j].workload
  }

  /**
   * Places `e` in front of the first record whose workload is not smaller, so ahead
   * of every record of equal workload.
   */
  function InsertByWorkload(e: Employee, s: seq<Employee>): (r: seq<Employee>)
    requires SortedByWorkload(s)
    ensures SortedByWorkload(r)
    ensures multiset(r) == multiset(s) + multiset{e}
    ensures |r| == |s| + 1
    ensures r[0] == if s == [] || e.workload <= s[0].workload then e else s[0]
  {
    if s == [] || e.workload <= s[0].workload then [e] + s
    else
      assert s == [s[0]] + s[1..];
      [s[0]] + InsertByWorkload(e, s[1..])
  }

  /**
   * The copy `[...employees].sort((a, b) => a.workload - b.workload)`: ascending by
   * workload and a permutation of the input. `Array.prototype.sort` is stable
   * (section 23.1.3.30 of ECMA-262, 2023 edition); see SortByWorkloadIsStable.
   */
  function SortByWorkload(es: seq<Employee>): (r: seq<Employee>)
    ensures SortedByWorkload(r)
    ensures multiset(r) == multiset(es)
  {
    if es == [] then []
    else
      assert es == [es[0]] + es[1..];
      InsertByWorkload(es[0], SortByWorkload(es[1..]))
  }

  /** The records of workload `w`, in the order of `es`. */
  function WithWorkload(es: seq<Employee>, w: int): seq<Employee>
  {
    if es == [] then []
    else (if es[0].workload == w then [es[0]] else []) + WithWorkload(es[1..], w)
  }

  /** The records of workload `w` are records of `es`, and all of them have workload `w`. */
  lemma {:induction false} WithWorkloadMembers(es: seq<Employee>, w: int, x: Employee)
    requires x in WithWorkload(es, w)
    ensures x in es && x.workload == w
  {
    if es[0] != x || es[0].workload != w {
      WithWorkloadMembers(es[1..], w, x);
    }
  }

  /** One step of the insertion: in front of `s`, or past its first record. */
  lemma InsertStep(e: Employee, s: seq<Employee>)
    requires SortedByWorkload(s)
    ensures s == [] || e.workload <= s[0].workload ==> InsertByWorkload(e, s) == [e] + s
    ensures s != [] && s[0].workload < e.workload ==>
              SortedByWorkload(s[1..]) && InsertByWorkload(e, s) == [s[0]] + InsertByWorkload(e, s[1..])
  {
    if s != [] {
      SortedByWorkloadTail(s);
    }
  }

  /** Inserting `e` puts it ahead of the records of its workload and moves no other record. */
  lemma {:induction false} InsertKeepsEqualWorkloadOrder(e: Employee, s: seq<Employee>, w: int)
    requires SortedByWorkload(s)
    ensures WithWorkload(InsertByWorkload(e, s), w)
              == (if e.workload == w then [e] else []) + WithWorkload(s, w)
  {
    if s == [] || e.workload <= s[0].workload {
      InsertInFront(e, s, w);
    } else {
      SortedByWorkloadTail(s);
      InsertKeepsEqualWorkloadOrder(e, s[1..], w);
      InsertPastHead(e, s, w);
    }
  }

  /** When `e` goes in front, its records of workload `w` are `e` (if of workload `w`) and those of `s`. */
  lemma InsertInFront(e: Employee, s: seq<Employee>, w: int)
    requires SortedByWorkload(s) && (s == [] || e.workload <= s[0].workload)
    ensures WithWorkload(InsertByWorkload(e, s), w)
              == (if e.workload == w then [e] else []) + WithWorkload(s, w)
  {
    InsertStep(e, s);
    assert ([e] + s)[0] == e && ([e] + s)[1..] == s;
    FirstRecordListed([e] + s, w);
  }

  /**
   * When `e` goes past the first record of `s`, the claim for the rest of `s` gives it
   * for `s`: that first record has a smaller workload than `e`, so at most one of the
   * two is of workload `w`.
   */
  lemma InsertPastHead(e: Employee, s: seq<Employee>, w: int)
    requires SortedByWorkload(s) && s != [] && s[0].workload < e.workload
    requires SortedByWorkload(s[1..])
    requires WithWorkload(InsertByWorkload(e, s[1..]), w)
               == (if e.workload == w then [e] else []) + WithWorkload(s[1..], w)
    ensures WithWorkload(InsertByWorkload(e, s), w)
              == (if e.workload == w then [e] else []) + WithWorkload(s, w)
  {
    var rest := InsertByWorkload(e, s[1..]);
    var head := if s[0].workload == w then [s[0]] else [];
    var mine := if e.workload == w then [e] else [];
    var tail := WithWorkload(s[1..], w);
    assert WithWorkload(InsertByWorkload(e, s), w) == head + WithWorkload(rest, w) by {
      InsertStep(e, s);
      assert ([s[0]] + rest)[0] == s[0] && ([s[0]] + rest)[1..] == rest;
      FirstRecordListed([s[0]] + rest, w);
    }
    assert WithWorkload(s, w) == head + tail by {
      FirstRecordListed(s, w);
    }
    SwapEmptyPart(head, mine, tail);
  }

  /** Two parts of which one is empty can be swapped. */
  lemma SwapEmptyPart(a: seq<Employee>, b: seq<Employee>, c: seq<Employee>)
    requires a == [] || b == []
    ensures a + (b + c) == b + (a + c)
  {
    if a == [] {
      assert a + (b + c) == b + c == b + (a + c);
    } else {
      assert a + (b + c) == a + c == b + (a + c);
    }
  }

  /** The records of workload `w` in a non-empty list: its first record, if of workload `w`, then those of the rest. */
  lemma FirstRecordListed(es: seq<Employee>, w: int)
    requires es != []
    ensures WithWorkload(es, w) == (if es[0].workload == w then [es[0]] else []) + WithWorkload(es[1..], w)
  {
  }

  /** Records of equal workload keep their input order: the sort is stable. */
  lemma {:induction false} SortByWorkloadIsStable(es: seq<Employee>, w: int)
    ensures WithWorkload(SortByWorkload(es), w) == WithWorkload(es, w)
  {
    if es != [] {
      SortByWorkloadIsStable(es[1..], w);
      InsertKeepsEqualWorkloadOrder(es[0], SortByWorkload(es[1..]), w);
    }
  }

  /** The first record of a list ascending by workload has the least workload in it. */
  lemma LeastWorkloadFirst(s: seq<Employee>, x: Employee)
    requires SortedByWorkload(s) && x in s
    ensures s[0].workload <= x.workload
  {
    var j :| 0 <= j < |s| && s[j] == x;
  }

  /**
   * Two lists ascending by workload whose records of each workload come in the same
   * order are equal.
   */
  lemma {:induction false} SameWorkloadOrderEqual(r: seq<Employee>, s: seq<Employee>)
    requires SortedByWorkload(r) && SortedByWorkload(s)
    requires forall w :: WithWorkload(r, w) == WithWorkload(s, w)
    ensures r == s
  {
    if r == [] || s == [] {
      if r != [] {
        FirstRecordListed(r, r[0].workload);
        assert false;
      } else if s != [] {
        FirstRecordListed(s, s[0].workload);
        assert false;
      }
    } else {
      var w0, v0 := r[0].workload, s[0].workload;
      assert s[0] in WithWorkload(r, v0) by { assert WithWorkload(s, v0)[0] == s[0]; }
      assert r[0] in WithWorkload(s, w0) by { assert WithWorkload(r, w0)[0] == r[0]; }
      WithWorkloadMembers(r, v0, s[0]);
      WithWorkloadMembers(s, w0, r[0]);
      LeastWorkloadFirst(r, s[0]);
      LeastWorkloadFirst(s, r[0]);
      assert r[0] == s[0] by {
        assert WithWorkload(r, w0)[0] == r[0] && WithWorkload(s, w0)[0] == s[0];
      }
      forall w ensures WithWorkload(r[1..], w) == WithWorkload(s[1..], w) {
        var head := if w0 == w then [r[0]] else [];
        assert WithWorkload(r, w) == head + WithWorkload(r[1..], w);
        assert WithWorkload(s, w) == head + WithWorkload(s[1..], w);
        assert WithWorkload(r[1..], w) == WithWorkload(r, w)[|head|..];
        assert WithWorkload(s[1..], w) == WithWorkload(s, w)[|head|..];
      }
      SortedByWorkloadTail(r);
      SortedByWorkloadTail(s);
      SameWorkloadOrderEqual(r[1..], s[1..]);
      assert r == [r[0]] + r[1..] && s == [s[0]] + s[1..];
    }
  }

  /** Dropping the first record keeps a list ascending by workload. */
  lemma SortedByWorkloadTail(s: seq<Employee>)
    requires SortedByWorkload(s) && s != []
    ensures SortedByWorkload(s[1..])
  {
    forall i, j | 0 <= i < j < |s| - 1 ensures s[1..][i].workload <= s[1..][j].workload {
      assert s[1..][i] == s[i + 1] && s[1..][j] == s[j + 1];
    }
  }

  /**
   * ECMA-262 fixes the result of a stable sort: any arrangement of the records that
   * is ascending by workload and keeps the order of equal workloads is the copy
   * SortByWorkload returns, whichever algorithm an engine uses.
   */
  lemma StableSortIsUnique(es: seq<Employee>, r: seq<Employee>)
    requires SortedByWorkload(r)
    requires forall w :: WithWorkload(r, w) == WithWorkload(es, w)
    ensures r == SortByWorkload(es)
  {
    forall w ensures WithWorkload(r, w) == WithWorkload(SortByWorkload(es), w) {
      SortByWorkloadIsStable(es, w);
    }
    SameWorkloadOrderEqual(r, SortByWorkload(es));
  }

  /**
   * With every workload one of {10, 20, 30, 40}, the median workload is a multiple
   * of 5 between 10 and 40 (0 for no records), so `Math.round` leaves it unchanged.
   */
  lemma MedianWorkloadIsExact(es: seq<Employee>)
    requires forall i :: 0 <= i < |es| ==> es[i].workload in WORKLOADS
    ensures var m := Median(AsReals(Workloads(es)));
            && Round(m) as real == m
            && (|es| > 0 ==> 10.0 <= m <= 40.0)
  {
    var k := MedianWorkloadAsInteger(es);
    RoundOfInteger(k);
  }

  /** `Math.round` of an integer is that integer. */
  lemma RoundOfInteger(k: int)
    ensures Round(k as real) == k
  {
  }

  /** The median workload, as an integer between 10 and 40 (0 for no records). */
  lemma MedianWorkloadAsInteger(es: seq<Employee>) returns (k: int)
    requires forall i :: 0 <= i < |es| ==> es[i].workload in WORKLOADS
    ensures Median(AsReals(Workloads(es))) == k as real
    ensures |es| > 0 ==> 10 <= k <= 40
  {
    if |es| == 0 {
      k := 0;
    } else {
      k := MedianOfWorkloadList(Workloads(es));
    }
  }

  /** The median of a non-empty list of workloads from WORKLOADS, as an integer in [10, 40]. */
  lemma MedianOfWorkloadList(ws: seq<int>) returns (k: int)
    requires |ws| > 0 && forall i :: 0 <= i < |ws| ==> ws[i] in WORKLOADS
    ensures Median(AsReals(ws)) == k as real && 10 <= k <= 40
  {
    var ys := AsReals(ws);
    var s := SortAscending(ys);
    MedianOfSortedArrangement(ys, s);
    var mid := |s| / 2;
    var b := SortedWorkloadAt(ws, s, mid);
    if |s| % 2 == 0 {
      var a := SortedWorkloadAt(ws, s, mid - 1);
      k := HalfSumOfWorkloads(a, b);
    } else {
      WorkloadCases(b);
      k := b;
    }
  }

  /** Every element of the sorted copy of a list of workloads is one of those workloads. */
  lemma SortedWorkloadAt(ws: seq<int>, s: seq<real>, j: nat) returns (w: int)
    requires forall i :: 0 <= i < |ws| ==> ws[i] in WORKLOADS
    requires s == SortAscending(AsReals(ws)) && j < |s|
    ensures w in WORKLOADS && s[j] == w as real
  {
    assert s[j] in multiset(s);
    var i := IndexOfElement(AsReals(ws), s[j]);
    w := ws[i];
  }

  /** The four workloads one by one. */
  lemma WorkloadCases(x: int)
    requires x in WORKLOADS
    ensures x == 10 || x == 20 || x == 30 || x == 40
  {
  }

  /** The mean of two workloads is a whole number between 10 and 40. */
  lemma HalfSumOfWorkloads(a: int, b: int) returns (k: int)
    requires a in WORKLOADS && b in WORKLOADS
    ensures (a as real + b as real) / 2.0 == k as real && 10 <= k <= 40
  {
    WorkloadCases(a);
    WorkloadCases(b);
    k := (a + b) / 2;
  }

  /** The median workload of [10, 20, 30, 40] is 25. */
  lemma MedianWorkloadOfFour(ws: seq<int>)
    requires ws == [10, 20, 30, 40]
    ensures Round(Median(AsReals(ws))) == 25
  {
    var ys := AsReals(ws);
    assert ys[0] == 10.0 && ys[1] == 20.0 && ys[2] == 30.0 && ys[3] == 40.0;
    MedianOfFourAscending(ys);
    RoundOfInteger(25);
  }

  /** The median workload of [10, 20, 30] is 20. */
  lemma MedianWorkloadOfThree(ws: seq<int>)
    requires ws == [10, 20, 30]
    ensures Round(Median(AsReals(ws))) == 20
  {
    var ys := AsReals(ws);
    assert ys[0] == 10.0 && ys[1] == 20.0 && ys[2] == 30.0;
    MedianOfThreeAscending(ys);
    RoundOfInteger(20);
  }

  /** The median of four ascending values is the mean of the middle two. */
  lemma MedianOfFourAscending(s: seq<real>)
    requires |s| == 4 && s[0] <= s[1] <= s[2] <= s[3]
    ensures Median(s) == (s[1] + s[2]) / 2.0
  {
    assert Sorted(s) by {
      forall i, j | 0 <= i < j < |s| ensures s[i] <= s[j] {
      }
    }
    MedianOfAscending(s);
  }

  /** The median of three ascending values is the middle one. */
  lemma MedianOfThreeAscending(s: seq<real>)
    requires |s| == 3 && s[0] <= s[1] <= s[2]
    ensures Median(s) == s[1]
  {
    assert Sorted(s) by {
      forall i, j | 0 <= i < j < |s| ensures s[i] <= s[j] {
      }
    }
    MedianOfAscending(s);
  }

  /** Records with workloads 40, 10, 10 sort to the two 10s in input order, then the 40. */
  lemma StableSortExample(es: seq<Employee>)
    requires |es| == 3 && es[0].workload == 40 && es[1].workload == 10 && es[2].workload == 10
    ensures SortByWorkload(es) == [es[1], es[2], es[0]]
  {
    var rest := es[1..];
    assert SortedByWorkload(rest);
    SortedIsUnchanged(rest);
    SortInFrontOfSmaller(es[0], rest);
    assert es == [es[0]] + rest;
    assert rest + [es[0]] == [es[1], es[2], es[0]];
  }

  /**
   * A record in front of a list in workload order, all of whose workloads are
   * smaller than its own, is moved to the end.
   */
  lemma SortInFrontOfSmaller(e: Employee, s: seq<Employee>)
    requires SortedByWorkload(s) && SortByWorkload(s) == s
    requires forall i :: 0 <= i < |s| ==> s[i].workload < e.workload
    ensures SortByWorkload([e] + s) == s + [e]
  {
    assert ([e] + s)[0] == e && ([e] + s)[1..] == s;
    InsertAfterSmaller(e, s);
  }


  /** Sorting records already in workload order leaves them as they are. */
  lemma {:induction false} SortedIsUnchanged(s: seq<Employee>)
    requires SortedByWorkload(s)
    ensures SortByWorkload(s) == s
  {
    if s != [] {
      SortedByWorkloadTail(s);
      SortedIsUnchanged(s[1..]);
      assert s == [s[0]] + s[1..];
    }
  }

  /** A record with a larger workload than every record of a sorted list goes last. */
  lemma {:induction false} InsertAfterSmaller(e: Employee, s: seq<Employee>)
    requires SortedByWorkload(s)
    requires forall i :: 0 <= i < |s| ==> s[i].workload < e.workload
    ensures InsertByWorkload(e, s) == s + [e]
  {
    if s != [] {
      SortedByWorkloadTail(s);
      InsertAfterSmaller(e, s[1..]);
      assert s == [s[0]] + s[1..];
      assert s + [e] == [s[0]] + (s[1..] + [e]);
    }
  }

  /** The output of `getEmployeeStatistics` (main.js:288-301). */
  datatype EmployeeStatistics = EmployeeStatistics(
    total: nat,
    workload10: nat, workload20: nat, workload30: nat, workload40: nat,
    averageAge: real, minAge: int, maxAge: int, medianAge: int,
    medianWorkload: int, averageWomenWorkload: real,
    sortedByWorkload: seq<Employee>)

  /**
   * `getEmployeeStatistics(employees)` with the clock reading `today`. For no records
   * every statistic is 0 and the sorted copy is empty; otherwise the age statistics
   * are the floors of the minimum, maximum and median age (so ordered) and the
   * average age is rounded to one decimal. The sorted copy is a stable ascending
   * arrangement of the input, which itself is a value and stays as it was.
   */
  method GetEmployeeStatistics(employees: seq<Employee>, today: real) returns (dtoOut: EmployeeStatistics)
    ensures dtoOut.total == |employees|
    ensures dtoOut.workload10 == CountWorkload(employees, 10) && dtoOut.workload20 == CountWorkload(employees, 20)
    ensures dtoOut.workload30 == CountWorkload(employees, 30) && dtoOut.workload40 == CountWorkload(employees, 40)
    ensures dtoOut.workload10 + dtoOut.workload20 + dtoOut.workload30 + dtoOut.workload40 <= dtoOut.total
    ensures employees == [] ==>
              && dtoOut.averageAge == 0.0 && dtoOut.minAge == 0 && dtoOut.maxAge == 0 && dtoOut.medianAge == 0
              && dtoOut.medianWorkload == 0 && dtoOut.averageWomenWorkload == 0.0 && dtoOut.sortedByWorkload == []
    ensures employees != [] ==>
              var ages := Ages(employees, today);
              && dtoOut.minAge == Floor(MinOf(ages))
              && dtoOut.maxAge == Floor(MaxOf(ages))
              && dtoOut.medianAge == Floor(Median(ages))
              && dtoOut.minAge <= dtoOut.medianAge <= dtoOut.maxAge
              && dtoOut.averageAge == RoundToOneDecimal(Sum(ages) / |employees| as real)
              && MinOf(ages) <= Sum(ages) / |employees| as real <= MaxOf(ages)
    ensures dtoOut.medianWorkload == Round(Median(AsReals(Workloads(employees))))
    ensures var women := WomenWorkloads(employees);
            dtoOut.averageWomenWorkload
              == if women == [] then 0.0 else RoundToOneDecimal(Sum(AsReals(women)) / |women| as real)
    ensures SortedByWorkload(dtoOut.sortedByWorkload)
    ensures multiset(dtoOut.sortedByWorkload) == multiset(employees)
    ensures forall w :: WithWorkload(dtoOut.sortedByWorkload, w) == WithWorkload(employees, w)
  {
    var total := |employees|;
    var agg := AggregateEmployeeData(employees, today);
    CountersAccountForRecords(employees);

    var averageAge, minAge, maxAge, medianAge := 0.0, 0, 0, 0;
    if |agg.ages| > 0 {
      var sumAges := Sum(agg.ages);
      var avg := sumAges / |agg.ages| as real;
      MeanBetweenMinAndMax(agg.ages);
      averageAge := RoundToOneDecimal(avg);
      var minRaw := MinOf(agg.ages);
      var maxRaw := MaxOf(agg.ages);
      var medianRaw := Median(agg.ages);
      minAge := Floor(minRaw);
      maxAge := Floor(maxRaw);
      medianAge := Floor(medianRaw);
    }

    var medianWorkloadRaw := Median(AsReals(agg.workloads));
    var medianWorkload := Round(medianWorkloadRaw);

    var averageWomenWorkload := 0.0;
    if |agg.womenWorkloads| > 0 {
      var sumWomen := Sum(AsReals(agg.womenWorkloads));
      var avgWomen := sumWomen / |agg.womenWorkloads| as real;
      averageWomenWorkload := RoundToOneDecimal(avgWomen);
    }

    var sortedByWorkload := SortByWorkload(employees);
    forall w ensures WithWorkload(sortedByWorkload, w) == WithWorkload(employees, w) {
      SortByWorkloadIsStable(employees, w);
    }

    dtoOut := EmployeeStatistics(
      total, agg.workload10, agg.workload20, agg.workload30, agg.workload40,
      averageAge, minAge, maxAge, medianAge, medianWorkload, averageWomenWorkload, sortedByWorkload);
  }
}
