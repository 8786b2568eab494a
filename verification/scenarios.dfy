/**
 Concrete collections and the view the model derives from them: the display order of three
 tasks, the dashboard of four, and a case-insensitive search.
 */
module Scenarios {
  import opened Types
  import Seqs
  import Text
  import View

  /** Open, undated. */
  const A: Task := Task("a", "Alpha", None, None, false, 1)
  /** Open, due on day 19723 (2024-01-01) at 09:00. */
  const B: Task := Task("b", "Beta", Some(19723), Some(540), false, 2)
  /** Completed, due on day 19358 (2023-01-01). */
  const C: Task := Task("c", "Gamma", Some(19358), None, true, 3)

  /** Open before completed, dated before undated: B, A, C. */
  lemma DisplayOrderExample()
    ensures View.FilteredTasks([A, B, C], All, "") == [B, A, C]
  {
    NothingFilteredOut([A, B, C]);
    SortExample();
  }

  /** With filter `All` and no query every task survives the filter. */
  lemma NothingFilteredOut(s: seq<Task>)
    ensures Seqs.Filter(t => View.Matches(t, All, ""), s) == s
  {
    forall t | t in s
      ensures View.Matches(t, All, "")
    {
      View.EmptyQueryMatchesAll(t);
    }
    Seqs.FilterAll(t => View.Matches(t, All, ""), s);
  }

  lemma SortExample()
    ensures View.SortTasks([A, B, C]) == [B, A, C]
  {
    assert View.Compare(B, C) < 0 && View.Compare(A, B) > 0 && View.Compare(A, C) < 0;
    assert [A, B, C][1..] == [B, C] && [B, C][1..] == [C];
    assert View.SortTasks([C]) == [C];
    assert View.SortTasks([B, C]) == [B, C];
    assert View.Insert(A, [C]) == [A, C];
    assert View.Insert(A, [B, C]) == [B, A, C];
  }

  /** Four tasks, one completed: 4 in all, 3 open, 1 done, 25 %. */
  lemma DashboardExample()
    ensures View.Stats([A, B, C, A.(id := "d")]) == View.Dashboard(4, 3, 1, 25)
  {
    OneDone();
    assert View.Percent(1, 4) == 25;
  }

  lemma OneDone()
    ensures CompletedCount([A, B, C, A.(id := "d")]) == 1
  {
    var d := A.(id := "d");
    var s := [A, B, C, d];
    assert s[1..] == [B, C, d] && [B, C, d][1..] == [C, d] && [C, d][1..] == [d];
    assert Seqs.Filter(IsDone, [d]) == [];
    assert Seqs.Filter(IsDone, [C, d]) == [C];
    assert Seqs.Filter(IsDone, [B, C, d]) == [C];
    assert Seqs.Filter(IsDone, s) == [C];
  }

  const Milk: Task := Task("m", "Buy milk", None, None, false, 4)
  const Dog: Task := Task("w", "Walk dog", None, None, false, 5)

  /** Searching "MILK" finds "Buy milk" and not "Walk dog". */
  lemma SearchExample()
    ensures View.MatchesSearch(Milk, "MILK")
    ensures !View.MatchesSearch(Dog, "MILK")
  {
    LowerExamples();
    MilkInBuyMilk();
    NoMilkInDog();
  }

  lemma MilkInBuyMilk()
    ensures Text.Includes("buy milk", "milk")
  {
    assert Text.OccursAt("buy milk", "milk", 4);
  }

  lemma LowerExamples()
    ensures Text.Lower("MILK") == "milk"
    ensures Text.Lower("Buy milk") == "buy milk"
    ensures Text.Lower("Walk dog") == "walk dog"
  {
    LowerExample("MILK", "milk");
    LowerExample("Buy milk", "buy milk");
    LowerExample("Walk dog", "walk dog");
  }

  /** `Lower(s) == l` once every character of `l` is checked. */
  lemma LowerExample(s: string, l: string)
    requires |s| == |l| && forall k :: 0 <= k < |s| ==> Text.LowerChar(s[k]) == l[k]
    ensures Text.Lower(s) == l
  {
  }

  lemma NoMilkInDog()
    ensures !Text.Includes("walk dog", "milk")
  {
    var w := "walk dog";
    forall i | 0 <= i <= |w| - 4
      ensures !Text.OccursAt(w, "milk", i)
    {
      assert w[i] != 'm';
      assert w[i..i + 4][0] == w[i];
    }
  }

  /** ... so the open-task views show exactly "Buy milk". */
  lemma SearchViewExample(f: TaskFilter)
    requires f != Completed
    ensures View.FilteredTasks([Milk, Dog], f, "MILK") == [Milk]
  {
    SearchFilterExample(f);
    assert View.SortTasks([Milk]) == [Milk];
  }

  lemma SearchFilterExample(f: TaskFilter)
    requires f != Completed
    ensures Seqs.Filter(t => View.Matches(t, f, "MILK"), [Milk, Dog]) == [Milk]
  {
    SearchExample();
    assert View.Matches(Milk, f, "MILK") && !View.Matches(Dog, f, "MILK");
    assert [Milk, Dog][1..] == [Dog];
    assert Seqs.Filter(t => View.Matches(t, f, "MILK"), [Dog]) == [];
  }
}
