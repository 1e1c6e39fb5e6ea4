/**
 * Reading one course's section listing: the wait for the section cells (with the
 * "Enabled (0 of 0)" escape) and the stride-6 extraction of CRN -> open seats.
 * The browser is abstracted: a wait is a finite list of poll outcomes and the
 * listing is the list of the cells' texts.
 */
module Extraction {
  import opened Wrappers
  import opened Text

  /** What one bounded wait for the first section cell observed. */
  datatype Poll =
    | Appeared
      /** The wait timed out; `tabLabel` is the text of the "Enabled" tab, if present. */
    | TimedOut(tabLabel: Option<string>)

  datatype WaitResult = SectionsShown | NoSections | GaveUp

  const NoSectionsLabel: string := "Enabled (0 of 0)"

  /** `has_no_sections`: the Enabled tab exists and reads exactly "Enabled (0 of 0)". */
  predicate HasNoSections(tabLabel: Option<string>)
  {
    tabLabel == Some(NoSectionsLabel)
  }

  /** A poll that ends the wait. */
  predicate Decisive(p: Poll)
  {
    p.Appeared? || HasNoSections(p.tabLabel)
  }

  /** The outcome of the wait loop over the given polls; every non-decisive timeout
      reloads the page and waits again. */
  function WaitOutcome(polls: seq<Poll>): WaitResult
  {
    if polls == [] then GaveUp
    else if polls[0].Appeared? then SectionsShown
    else if HasNoSections(polls[0].tabLabel) then NoSections
    else WaitOutcome(polls[1..])
  }

  /** The wait ends at the first decisive poll and reports what that poll saw. */
  lemma {:induction false} WaitStopsAtFirstDecisive(polls: seq<Poll>, k: nat)
    requires k < |polls| && Decisive(polls[k])
    requires forall i :: 0 <= i < k ==> !Decisive(polls[i])
    ensures WaitOutcome(polls) == (if polls[k].Appeared? then SectionsShown else NoSections)
  {
    if k > 0 {
      WaitStopsAtFirstDecisive(polls[1..], k - 1);
    }
  }

  /** Without a decisive poll the wait never ends within the polls given. */
  lemma {:induction false} WaitGivesUpWithoutDecisive(polls: seq<Poll>)
    requires forall i :: 0 <= i < |polls| ==> !Decisive(polls[i])
    ensures WaitOutcome(polls) == GaveUp
  {
    if polls != [] {
      WaitGivesUpWithoutDecisive(polls[1..]);
    }
  }

  /** The `while not success` wait loop of `check_sections`. */
  method WaitForSections(polls: seq<Poll>) returns (r: WaitResult)
    ensures r == WaitOutcome(polls)
  {
    var i := 0;
    while i < |polls|
      invariant 0 <= i <= |polls|
      invariant WaitOutcome(polls[i..]) == WaitOutcome(polls)
    {
      assert polls[i..][1..] == polls[i + 1..];
      if polls[i].Appeared? {
        return SectionsShown;
      }
      if HasNoSections(polls[i].tabLabel) {
        return NoSections;
      }
      i := i + 1;   // reload and wait again
    }
    return GaveUp;
  }

  // ---- stride-6 extraction ----

  /** Number of iterations of `range(0, n, 6)`. */
  function Groups(n: nat): nat
  {
    (n + 5) / 6
  }

  function CrnAt(cells: seq<string>, k: nat): string
    requires 6 * k < |cells|
  {
    cells[6 * k]
  }

  /** The seat count of group `k`, or None where Python raises (IndexError on a
      missing cell, ValueError on a non-integer text). */
  function SeatsAt(cells: seq<string>, k: nat): Option<int>
  {
    if 6 * k + 3 < |cells| then ParseInt(cells[6 * k + 3]) else None
  }

  /** The map built by the first `k` iterations, or None once one of them raised. */
  function StridePrefix(cells: seq<string>, k: nat): Option<map<string, int>>
    requires k <= Groups(|cells|)
  {
    if k == 0 then Some(map[])
    else match StridePrefix(cells, k - 1)
      case None => None
      case Some(m) =>
        match SeatsAt(cells, k - 1)
        case None => None
        case Some(seats) => Some(m[CrnAt(cells, k - 1) := seats])
  }

  /** `visible_sections` after the extraction loop, or None when it raised. */
  function StrideSections(cells: seq<string>): Option<map<string, int>>
  {
    StridePrefix(cells, Groups(|cells|))
  }

  lemma {:induction false} StridePrefixFails(cells: seq<string>, k: nat)
    requires k <= Groups(|cells|)
    ensures StridePrefix(cells, k).None? <==> exists j :: 0 <= j < k && SeatsAt(cells, j).None?
  {
    if k > 0 {
      StridePrefixFails(cells, k - 1);
      if StridePrefix(cells, k - 1).None? {
        var j :| 0 <= j < k - 1 && SeatsAt(cells, j).None?;
        assert 0 <= j < k && SeatsAt(cells, j).None?;
      } else if SeatsAt(cells, k - 1).None? {
        assert 0 <= k - 1 < k && SeatsAt(cells, k - 1).None?;
      }
    }
  }

  /** Extraction fails exactly when some group's seat cell is missing or not an integer. */
  lemma StrideFailsIff(cells: seq<string>)
    ensures StrideSections(cells).None? <==>
      exists k :: 0 <= k < Groups(|cells|) && SeatsAt(cells, k).None?
  {
    StridePrefixFails(cells, Groups(|cells|));
  }

  lemma {:induction false} StridePrefixSeats(cells: seq<string>, k: nat)
    requires k <= Groups(|cells|) && StridePrefix(cells, k).Some?
    ensures forall j :: 0 <= j < k ==> SeatsAt(cells, j).Some?
  {
    if k > 0 {
      StridePrefixSeats(cells, k - 1);
    }
  }

  lemma {:induction false} StridePrefixKeys(cells: seq<string>, k: nat)
    requires k <= Groups(|cells|) && StridePrefix(cells, k).Some?
    ensures StridePrefix(cells, k).value.Keys == set j | 0 <= j < k :: CrnAt(cells, j)
  {
    if k > 0 {
      StridePrefixKeys(cells, k - 1);
      var m := StridePrefix(cells, k - 1).value;
      assert StridePrefix(cells, k).value.Keys == m.Keys + {CrnAt(cells, k - 1)};
      assert (set j | 0 <= j < k :: CrnAt(cells, j)) == (set j | 0 <= j < k - 1 :: CrnAt(cells, j)) + {CrnAt(cells, k - 1)};
    }
  }

  lemma {:induction false} StridePrefixLastWins(cells: seq<string>, k: nat)
    requires k <= Groups(|cells|) && StridePrefix(cells, k).Some?
    ensures forall j :: 0 <= j < k && (forall l :: j < l < k ==> CrnAt(cells, l) != CrnAt(cells, j)) ==>
      CrnAt(cells, j) in StridePrefix(cells, k).value && SeatsAt(cells, j).Some? &&
      StridePrefix(cells, k).value[CrnAt(cells, j)] == SeatsAt(cells, j).value
  {
    if k > 0 {
      StridePrefixLastWins(cells, k - 1);
      StridePrefixSeats(cells, k);
    }
  }

  /**
   * On success, the CRNs are exactly the cells at 6k, each mapped to the integer in
   * the cell at 6k+3 of the LAST group carrying that CRN.
   */
  lemma StrideContents(cells: seq<string>)
    requires StrideSections(cells).Some?
    ensures StrideSections(cells).value.Keys == set k | 0 <= k < Groups(|cells|) :: CrnAt(cells, k)
    ensures forall k :: 0 <= k < Groups(|cells|) ==> 6 * k + 3 < |cells| && ParseInt(cells[6 * k + 3]).Some?
    ensures forall k ::
      (0 <= k < Groups(|cells|) && forall l :: k < l < Groups(|cells|) ==> CrnAt(cells, l) != CrnAt(cells, k)) ==>
      CrnAt(cells, k) in StrideSections(cells).value &&
      StrideSections(cells).value[CrnAt(cells, k)] == ParseInt(cells[6 * k + 3]).value
  {
    StridePrefixSeats(cells, Groups(|cells|));
    forall k | 0 <= k < Groups(|cells|)
      ensures 6 * k + 3 < |cells| && ParseInt(cells[6 * k + 3]) == SeatsAt(cells, k)
    {
      assert SeatsAt(cells, k).Some?;
    }
    StridePrefixKeys(cells, Groups(|cells|));
    StridePrefixLastWins(cells, Groups(|cells|));
  }

  /** The extraction loop of `check_sections`; None stands for the caught exception. */
  method ExtractVisible(cells: seq<string>) returns (r: Option<map<string, int>>)
    ensures r == StrideSections(cells)
  {
    var visible: map<string, int> := map[];
    var k := 0;
    while 6 * k < |cells|
      invariant k <= Groups(|cells|)
      invariant 6 * k >= |cells| ==> k == Groups(|cells|)
      invariant StridePrefix(cells, k) == Some(visible)
    {
      var at := 6 * k;
      if at + 3 >= |cells| {
        StridePrefixFails(cells, Groups(|cells|));
        assert SeatsAt(cells, k).None?;
        return None;   // IndexError
      }
      var seats := ParseInt(cells[at + 3]);
      if seats.None? {
        StridePrefixFails(cells, Groups(|cells|));
        assert SeatsAt(cells, k).None?;
        return None;   // ValueError
      }
      visible := visible[cells[at] := seats.value];
      k := k + 1;
    }
    return Some(visible);
  }
}
