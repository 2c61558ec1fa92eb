/** Which classes the field solver writes files for (examples/unknown.c:845-866). */
module ClassList {
  import opened Options

  const MAX_CLASSES := 200

  /** The names in order, each once per run of equal ones. */
  function Runs(names: seq<string>): (rs: seq<string>)
    ensures |rs| <= |names|
  {
    var n := |names|;
    if n == 0 then []
    else Runs(names[..n - 1]) + if n >= 2 && names[n - 2] == names[n - 1] then [] else [names[n - 1]]
  }

  function Upto(rs: seq<string>, n: nat): seq<string> {
    if |rs| > n then rs[..n] else rs
  }

  lemma RunsStep(names: seq<string>, i: nat)
    requires i < |names|
    ensures Runs(names[..i + 1])
         == Runs(names[..i]) + if i > 0 && names[i - 1] == names[i] then [] else [names[i]]
  {
    assert names[..i + 1][..i] == names[..i];
  }

  lemma RunsCut(names: seq<string>, m: nat, classes: seq<string>)
    requires m <= |names| && classes == Runs(names[..m]) && |classes| == MAX_CLASSES
    ensures classes == Upto(Runs(names), 200)
  {
    RunsPrefix(names, m);
  }

  /** The loop over the table of objects, with the class asked for on the command line, if any. */
  method ListClasses(names: seq<string>, asked: Option<string>) returns (classes: seq<string>)
    ensures classes == if asked.Some? then [asked.value] else Upto(Runs(names), 200)
  {
    if asked.Some? {
      return [asked.value];
    }
    classes := [];
    var current, i := None, 0;
    while i < |names|
      invariant 0 <= i <= |names|
      invariant current == if i == 0 then None else Some(names[i - 1])
      invariant classes == Runs(names[..i]) && |classes| < MAX_CLASSES
    {
      RunsStep(names, i);
      if current == None || current.value != names[i] {
        classes := classes + [names[i]];
        current := Some(names[i]);
        if |classes| >= MAX_CLASSES {
          RunsCut(names, i + 1, classes);
          return;
        }
      } else {
        assert classes + [] == classes;
      }
      i := i + 1;
    }
    assert names[..i] == names;
  }

  lemma {:induction false} RunsPrefix(names: seq<string>, m: nat)
    requires m <= |names|
    ensures Runs(names[..m]) <= Runs(names)
    decreases |names|
  {
    if m == |names| {
      assert names[..m] == names;
    } else {
      RunsPrefix(names[..|names| - 1], m);
      assert names[..|names| - 1][..m] == names[..m];
    }
  }

  // ---- the table is to be sorted by class ----------------------------------

  /** Objects of the same class stand next to each other. */
  ghost predicate Grouped(names: seq<string>) {
    forall i, j, k :: 0 <= i < j < k < |names| && names[i] == names[k] ==> names[j] == names[i]
  }

  ghost predicate Distinct(rs: seq<string>) {
    forall i, j :: 0 <= i < j < |rs| ==> rs[i] != rs[j]
  }

  lemma {:induction false} RunsHave(names: seq<string>, name: string)
    ensures name in Runs(names) <==> name in names
  {
    var n := |names|;
    if n > 0 {
      var p := names[..n - 1];
      assert names == p + [names[n - 1]];
      RunsHave(p, name);
      if n >= 2 && names[n - 2] == names[n - 1] {
        assert Runs(names) == Runs(p);
        assert p[n - 2] == names[n - 1];
      } else {
        assert Runs(names) == Runs(p) + [names[n - 1]];
      }
    }
  }

  /** The last name is new, or it repeats the one before it. */
  lemma GroupedStep(names: seq<string>)
    requires |names| >= 2
    ensures var p, last := names[..|names| - 1], names[|names| - 1];
      Grouped(names) <==> Grouped(p) && (last in p ==> p[|p| - 1] == last)
  {
    var n := |names|;
    var p, last := names[..n - 1], names[n - 1];
    if Grouped(names) {
      assert forall i :: 0 <= i < |p| ==> p[i] == names[i];
      if last in p {
        var i :| 0 <= i < |p| && p[i] == last;
        assert i < n - 2 ==> names[n - 2] == names[i];
      }
    }
    if Grouped(p) && (last in p ==> p[n - 2] == last) {
      forall i, j, k | 0 <= i < j < k < n && names[i] == names[k] ensures names[j] == names[i] {
        if k == n - 1 {
          assert names[i] == p[i] && p[i] in p;
          assert j < n - 2 ==> p[j] == p[i];
        } else {
          assert p[i] == p[k];
        }
      }
    }
  }

  lemma {:induction false} RunsDistinct(names: seq<string>)
    ensures Distinct(Runs(names)) <==> Grouped(names)
  {
    var n := |names|;
    if n >= 2 {
      var p, last := names[..n - 1], names[n - 1];
      RunsDistinct(p);
      RunsHave(p, last);
      GroupedStep(names);
      if p[n - 2] == last {
        assert Runs(names) == Runs(p);
      } else {
        DistinctStep(Runs(p), last);
      }
    }
  }

  lemma DistinctStep(rs: seq<string>, last: string)
    ensures Distinct(rs + [last]) <==> Distinct(rs) && last !in rs
  {
    var all := rs + [last];
    if Distinct(all) {
      forall i, j | 0 <= i < j < |rs| ensures rs[i] != rs[j] {
        assert all[i] != all[j];
      }
      forall i | 0 <= i < |rs| ensures rs[i] != last {
        assert all[i] != all[|rs|];
      }
    }
  }

  /** How often the main loop comes across an object of this class. */
  function Times(classes: seq<string>, name: string): nat {
    if classes == [] then 0 else (if classes[0] == name then 1 else 0) + Times(classes[1..], name)
  }

  lemma {:induction false} TimesOnce(rs: seq<string>, name: string)
    ensures Times(rs, name) > 0 <==> name in rs
    ensures Times(rs, name) > 1 <==> exists i, j :: 0 <= i < j < |rs| && rs[i] == rs[j] == name
  {
    if rs != [] {
      TimesOnce(rs[1..], name);
      if Times(rs, name) > 1 {
        if Times(rs[1..], name) > 1 {
          var i, j :| 0 <= i < j < |rs| - 1 && rs[1..][i] == rs[1..][j] == name;
          assert rs[i + 1] == rs[j + 1] == name;
        } else {
          var j :| 0 <= j < |rs| - 1 && rs[1..][j] == name;
          assert rs[0] == rs[j + 1] == name;
        }
      }
      if i, j :| 0 <= i < j < |rs| && rs[i] == rs[j] == name {
        assert rs[1..][j - 1] == name;
        assert i > 0 ==> rs[1..][i - 1] == name;
      }
    }
  }

  lemma {:induction false} DistinctOnce(rs: seq<string>)
    ensures Distinct(rs) <==> forall name :: name in rs ==> Times(rs, name) == 1
  {
    forall name | name in rs ensures Times(rs, name) > 0 && (Distinct(rs) ==> Times(rs, name) == 1) {
      TimesOnce(rs, name);
    }
    if i, j :| 0 <= i < j < |rs| && rs[i] == rs[j] {
      TimesOnce(rs, rs[i]);
      assert rs[i] in rs && Times(rs, rs[i]) > 1;
    }
  }

  /** How many objects of the table the listing looks at: up to the one that starts run 200, or all. */
  function LookedAt(names: seq<string>): (m: nat)
    ensures m <= |names|
  {
    if names == [] then 0
    else
      var before := names[..|names| - 1];
      if |Runs(before)| >= MAX_CLASSES then LookedAt(before) else |names|
  }

  /** These are the shortest part of the table with 200 runs, if it has that many, and their runs are listed. */
  lemma {:induction false} LookedAtRuns(names: seq<string>)
    ensures var m := LookedAt(names);
      && Runs(names[..m]) == Upto(Runs(names), 200)
      && (|Runs(names)| >= 200 ==> |Runs(names[..m])| == 200)
      && (|Runs(names)| < 200 ==> m == |names|)
    decreases |names|
  {
    var n := |names|;
    assert names[..n] == names;
    if n > 0 {
      var before := names[..n - 1];
      if |Runs(before)| >= MAX_CLASSES {
        LookedAtRuns(before);
        assert before[..LookedAt(before)] == names[..LookedAt(before)];
        RunsCut(names, LookedAt(before), Runs(names[..LookedAt(before)]));
      }
    }
  }

  lemma {:induction false} LookedAtLeast(names: seq<string>, k: nat)
    requires k < LookedAt(names)
    ensures |Runs(names[..k])| < 200
    decreases |names|
  {
    var before := names[..|names| - 1];
    if |Runs(before)| >= MAX_CLASSES {
      LookedAtLeast(before, k);
      assert before[..k] == names[..k];
    } else {
      assert names[..k] == before[..k];
      RunsPrefix(before, k);
    }
  }

  lemma ListedOnce(names: seq<string>, classes: seq<string>)
    requires forall name :: name in classes ==> name in names
    ensures (forall name :: name in names ==> Times(classes, name) == 1)
       <==> Distinct(classes) && forall name :: name in names ==> name in classes
  {
    forall name | name in names ensures Times(classes, name) > 0 <==> name in classes {
      TimesOnce(classes, name);
    }
    DistinctOnce(classes);
  }

  /**
    For every table: each object is looked at exactly once if and only if the
    part of the table with the first 200 runs is grouped by class, and no class
    begins behind it.
   */
  lemma EachObjectOnce(names: seq<string>)
    ensures var m := LookedAt(names);
      (forall name :: name in names ==> Times(Upto(Runs(names), 200), name) == 1)
        <==> Grouped(names[..m]) && forall k :: m <= k < |names| ==> names[k] in names[..m]
  {
    hide Runs, Times, LookedAt, Grouped, Distinct;
    var m, classes := LookedAt(names), Upto(Runs(names), 200);
    var front := names[..m];
    LookedAtRuns(names);
    RunsDistinct(front);
    forall name ensures name in classes <==> name in front {
      RunsHave(front, name);
    }
    ListedOnce(names, classes);
    assert (forall name :: name in names ==> name in front) <==> forall k :: m <= k < |names| ==> names[k] in front by {
      assert names == front + names[m..];
      assert forall k :: m <= k < |names| ==> names[k] in names;
    }
  }

  /** With no more than 200 runs that means: if and only if the table is grouped by class. */
  lemma EachObjectOnceShort(names: seq<string>)
    requires |Runs(names)| <= 200
    ensures (forall name :: name in names ==> Times(Upto(Runs(names), 200), name) == 1) <==> Grouped(names)
  {
    RunsDistinct(names);
    forall name ensures name in Runs(names) <==> name in names {
      RunsHave(names, name);
    }
    ListedOnce(names, Runs(names));
  }
}
