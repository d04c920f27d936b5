/**
 * The driver logic of run.py that does not touch the file system or the
 * solver: choosing an instance set from a directory listing by file-name
 * suffix, the table of solver status names, and deriving an instance name
 * from its file name.
 */
module Run {
  import opened Results

  // ------------------------------------------------------------------
  // Suffixes and instance sets
  // ------------------------------------------------------------------

  /** `s.endswith(suffix)`. */
  predicate EndsWith(s: string, suffix: string)
  {
    |suffix| <= |s| && s[|s| - |suffix|..] == suffix
  }

  /** `file.endswith(('C5.txt', 'C10.txt', 'C15.txt'))`: the instances with
      5, 10 or 15 clients. */
  predicate IsSmall(file: string)
  {
    EndsWith(file, "C5.txt") || EndsWith(file, "C10.txt") || EndsWith(file, "C15.txt")
  }

  /** `file.endswith('_21.txt')`: the instances with 100 clients. */
  predicate IsLarge(file: string)
  {
    EndsWith(file, "_21.txt")
  }

  /** `[file for file in listing if keep(file)]`. */
  function Filter(listing: seq<string>, keep: string -> bool): seq<string>
  {
    if listing == [] then []
    else (if keep(listing[0]) then [listing[0]] else []) + Filter(listing[1..], keep)
  }

  /** A file is kept exactly when it is listed and passes the test. */
  lemma {:induction false} FilterMembership(listing: seq<string>, keep: string -> bool, f: string)
    ensures f in Filter(listing, keep) <==> f in listing && keep(f)
    decreases |listing|
  {
    if listing != [] {
      FilterMembership(listing[1..], keep, f);
      assert listing == [listing[0]] + listing[1..];
    }
  }

  /** Filtering keeps listing order: it works piece by piece. */
  lemma {:induction false} FilterAppend(a: seq<string>, b: seq<string>, keep: string -> bool)
    ensures Filter(a + b, keep) == Filter(a, keep) + Filter(b, keep)
    decreases |a|
  {
    if a == [] {
      assert a + b == b;
    } else {
      assert (a + b)[1..] == a[1..] + b;
      FilterAppend(a[1..], b, keep);
    }
  }

  /** Filtering twice by the same test changes nothing more. */
  lemma {:induction false} FilterIdempotent(listing: seq<string>, keep: string -> bool)
    ensures Filter(Filter(listing, keep), keep) == Filter(listing, keep)
    decreases |listing|
  {
    if listing != [] {
      FilterIdempotent(listing[1..], keep);
      var head := if keep(listing[0]) then [listing[0]] else [];
      FilterAppend(head, Filter(listing[1..], keep), keep);
    }
  }

  /** Which of the three sets the `--instances` option names. */
  function SmallSet(listing: seq<string>): seq<string> { Filter(listing, IsSmall) }
  function LargeSet(listing: seq<string>): seq<string> { Filter(listing, IsLarge) }

  /** `get_instances`: the small set, the large set, or both in that
      order; a key the dictionary does not hold gets both. */
  function GetInstances(listing: seq<string>, key: string): seq<string>
  {
    if key == "small" then SmallSet(listing)
    else if key == "large" then LargeSet(listing)
    else SmallSet(listing) + LargeSet(listing)
  }

  /** The character five places from the end of a small instance's name:
      `5` or `0`. */
  lemma SmallMark(file: string)
    requires IsSmall(file)
    ensures |file| >= 6 && (file[|file| - 5] == '5' || file[|file| - 5] == '0')
  {
    var n := |file|;
    if EndsWith(file, "C5.txt") {
      assert file[n - 5] == file[n - 6..][1];
    } else if EndsWith(file, "C10.txt") {
      assert file[n - 5] == file[n - 7..][2];
    } else {
      assert file[n - 5] == file[n - 7..][2];
    }
  }

  /** The same character of a large instance's name: `1`. */
  lemma LargeMark(file: string)
    requires IsLarge(file)
    ensures |file| >= 7 && file[|file| - 5] == '1'
  {
    var n := |file|;
    assert file[n - 5] == file[n - 7..][2];
  }

  /** So no file is in both sets. */
  lemma SuffixesExclusive(file: string)
    ensures !(IsSmall(file) && IsLarge(file))
  {
    if IsSmall(file) {
      SmallMark(file);
    }
    if IsLarge(file) {
      LargeMark(file);
    }
  }

  /** Each selected file is listed and in the set it was chosen for; the
      two sets share no file, so `all` lists each selected file once for
      every time the directory does. */
  lemma InstanceSets(listing: seq<string>, key: string)
    ensures forall f :: f in GetInstances(listing, key) ==> f in listing && (IsSmall(f) || IsLarge(f))
    ensures key == "small" ==> forall f :: f in GetInstances(listing, key) <==> f in listing && IsSmall(f)
    ensures key == "large" ==> forall f :: f in GetInstances(listing, key) <==> f in listing && IsLarge(f)
    ensures key != "small" && key != "large" ==>
      forall f :: f in GetInstances(listing, key) <==> f in listing && (IsSmall(f) || IsLarge(f))
    ensures forall f :: f in SmallSet(listing) ==> f !in LargeSet(listing)
  {
    forall f ensures (f in SmallSet(listing) <==> f in listing && IsSmall(f)) &&
                     (f in LargeSet(listing) <==> f in listing && IsLarge(f)) &&
                     (f in SmallSet(listing) ==> f !in LargeSet(listing)) {
      FilterMembership(listing, IsSmall, f);
      FilterMembership(listing, IsLarge, f);
      SuffixesExclusive(f);
    }
  }

  /** The `all` set of a listing extended by more files is the `all` set
      of the listing with the new files' own sets spliced in: each set
      keeps listing order. */
  lemma AllSetAppend(a: seq<string>, b: seq<string>)
    ensures GetInstances(a + b, "all") ==
      SmallSet(a) + SmallSet(b) + LargeSet(a) + LargeSet(b)
  {
    FilterAppend(a, b, IsSmall);
    FilterAppend(a, b, IsLarge);
  }

  // ------------------------------------------------------------------
  // Solver status names
  // ------------------------------------------------------------------

  /** `STATUS_CODE`: Gurobi's optimisation status codes and their names. */
  const StatusCode: map<int, string> := map[
    1 := "LOADED", 2 := "OPTIMAL", 3 := "INFEASIBLE", 4 := "INF_OR_UNBD", 5 := "UNBOUNDED",
    6 := "CUTOFF", 7 := "ITERATION_LIMIT", 8 := "NODE_LIMIT", 9 := "TIME_LIMIT", 10 := "SOLUTION_LIMIT",
    11 := "INTERRUPTED", 12 := "NUMERIC", 13 := "SUBOPTIMAL", 14 := "INPROGRESS", 15 := "USER_OBJ_LIMIT",
    16 := "WORK_LIMIT", 17 := "MEM_LIMIT"]

  /** `STATUS_CODE[status]`, which raises `KeyError` outside the table. */
  function StatusName(status: int): (r: Option<string>)
    ensures r.Some? <==> status in StatusCode
  {
    if status in StatusCode then Some(StatusCode[status]) else None
  }

  /** The table covers exactly the codes 1 to 17, and names 2, 3 and 9
      as optimal, infeasible and time limit. */
  lemma StatusTable()
    ensures forall c :: c in StatusCode <==> 1 <= c <= 17
    ensures StatusName(2) == Some("OPTIMAL") && StatusName(3) == Some("INFEASIBLE") && StatusName(9) == Some("TIME_LIMIT")
  {
  }

  /** Every code has a name of its own, so a reported name gives the
      status back. */
  lemma StatusNamesDistinct(c1: int, c2: int)
    requires StatusName(c1).Some? && StatusName(c1) == StatusName(c2)
    ensures c1 == c2
  {
    StatusTable();
  }

  // ------------------------------------------------------------------
  // Instance names
  // ------------------------------------------------------------------

  /** `s.replace(pat, '')`: every occurrence of `pat`, found left to right
      without overlap, is removed. */
  function RemoveAll(s: string, pat: string): (r: string)
    requires pat != []
    ensures |r| <= |s|
    decreases |s|
  {
    if |s| < |pat| then s
    else if s[..|pat|] == pat then RemoveAll(s[|pat|..], pat)
    else [s[0]] + RemoveAll(s[1..], pat)
  }

  /** `pat` starts at position `k` of `s`. */
  predicate OccursAt(s: string, pat: string, k: int)
  {
    0 <= k && k + |pat| <= |s| && s[k..k + |pat|] == pat
  }

  /** A string without the pattern is left alone. */
  lemma {:induction false} RemoveAbsent(s: string, pat: string)
    requires pat != [] && forall k :: !OccursAt(s, pat, k)
    ensures RemoveAll(s, pat) == s
    decreases |s|
  {
    if |s| >= |pat| {
      assert !OccursAt(s, pat, 0);
      forall k ensures !OccursAt(s[1..], pat, k) {
        if OccursAt(s[1..], pat, k) {
          assert s[1..][k..k + |pat|] == s[k + 1..k + 1 + |pat|];
          assert OccursAt(s, pat, k + 1);
        }
      }
      RemoveAbsent(s[1..], pat);
    }
  }

  /** `file.replace('.txt', '')`. */
  function InstanceName(file: string): string
  {
    RemoveAll(file, ".txt")
  }

  /** A file name whose only `.txt` is its suffix loses exactly its last
      four characters. */
  lemma {:induction false} InstanceNameDropsSuffix(file: string)
    requires EndsWith(file, ".txt")
    requires forall k :: OccursAt(file, ".txt", k) ==> k == |file| - 4
    ensures InstanceName(file) == file[..|file| - 4]
    decreases |file|
  {
    var pat := ".txt";
    if |file| == 4 {
      assert file[..4] == pat;
      assert file[4..] == [];
    } else {
      assert !OccursAt(file, pat, 0);
      var rest := file[1..];
      assert rest[|rest| - 4..] == file[|file| - 4..];
      forall k | OccursAt(rest, pat, k) ensures k == |rest| - 4 {
        assert rest[k..k + 4] == file[k + 1..k + 5];
        assert OccursAt(file, pat, k + 1);
      }
      InstanceNameDropsSuffix(rest);
      assert file[..|file| - 4] == [file[0]] + rest[..|rest| - 4];
    }
  }
}
