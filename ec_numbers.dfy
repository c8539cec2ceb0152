/** Hierarchical EC labels. `Expand` models `convert_ec_string_to_list`, whose
    only documented behaviour is `'1.2.3.4' -> ['1.', '1.2.', '1.2.3.', '1.2.3.4']`:
    it is defined here by the prefix rule that example follows. `ExpandAll`
    is the list that `__getitem__` accumulates with `extend`. */
module EcNumbers {

  type Label = string

  /** The prefix `ec[..j]` is a level of the hierarchy: it is non-empty and
      ends just after a '.', or it is the whole ec. */
  predicate IsCut(ec: Label, j: int)
  {
    0 < j <= |ec| && (ec[j - 1] == '.' || j == |ec|)
  }

  /** The levels of `ec` whose prefix has length at most `n`, shortest first. */
  function ExpandUpTo(ec: Label, n: nat): seq<Label>
    requires n <= |ec|
  {
    if n == 0 then []
    else ExpandUpTo(ec, n - 1) + (if IsCut(ec, n) then [ec[..n]] else [])
  }

  /** `r` lists exactly the levels of `ec` of length at most `n`, each once,
      in increasing length. */
  ghost predicate ListsLevels(ec: Label, n: nat, r: seq<Label>)
    requires n <= |ec|
  {
    && (forall i :: 0 <= i < |r| ==> |r[i]| <= n && IsCut(ec, |r[i]|) && r[i] == ec[..|r[i]|])
    && (forall i, k :: 0 <= i < k < |r| ==> |r[i]| < |r[k]|)
    && (forall j :: 0 < j <= n && IsCut(ec, j) ==> ec[..j] in r)
  }

  lemma {:induction false} ExpandUpToLevels(ec: Label, n: nat)
    requires n <= |ec|
    ensures ListsLevels(ec, n, ExpandUpTo(ec, n))
  {
    if n > 0 {
      ExpandUpToLevels(ec, n - 1);
      var prev := ExpandUpTo(ec, n - 1);
      if IsCut(ec, n) {
        LevelAppended(ec, n, prev);
      } else {
        assert ExpandUpTo(ec, n) == prev;
      }
    }
  }

  /** A new level of length `n` extends the list of shorter levels. */
  lemma {:induction false} LevelAppended(ec: Label, n: nat, prev: seq<Label>)
    requires 0 < n <= |ec| && IsCut(ec, n)
    requires ListsLevels(ec, n - 1, prev)
    ensures ListsLevels(ec, n, prev + [ec[..n]])
  {
    var r := prev + [ec[..n]];
    forall i | 0 <= i < |r| ensures |r[i]| <= n && IsCut(ec, |r[i]|) && r[i] == ec[..|r[i]|] {
      if i < |prev| {
        assert r[i] == prev[i];
      }
    }
    forall i, k | 0 <= i < k < |r| ensures |r[i]| < |r[k]| {
      assert r[i] == prev[i];
      if k < |prev| {
        assert r[k] == prev[k];
      }
    }
    forall j | 0 < j <= n && IsCut(ec, j) ensures ec[..j] in r {
      if j < n {
        assert ec[..j] in prev;
      } else {
        assert r[|r| - 1] == ec[..j];
      }
    }
  }

  /** `convert_ec_string_to_list(ec)`: every level of the ec, most
      general first. */
  function Expand(ec: Label): (r: seq<Label>)
    ensures ec == [] ==> r == []
    ensures ec != [] ==> |r| > 0 && r[|r| - 1] == ec
  {
    ExpandUpTo(ec, |ec|)
  }

  /** The documented example. */
  lemma {:induction false} ExpandExample()
    ensures Expand("1.2.3.4") == ["1.", "1.2.", "1.2.3.", "1.2.3.4"]
  {
    var l := "1.2.3.4";
    assert ExpandUpTo(l, 2) == ["1."] by {
      assert ExpandUpTo(l, 1) == [];
      assert l[..2] == "1.";
    }
    assert ExpandUpTo(l, 4) == ["1.", "1.2."] by {
      assert ExpandUpTo(l, 3) == ["1."];
      assert l[..4] == "1.2.";
    }
    assert ExpandUpTo(l, 6) == ["1.", "1.2.", "1.2.3."] by {
      assert ExpandUpTo(l, 5) == ["1.", "1.2."];
      assert l[..6] == "1.2.3.";
    }
    assert l[..7] == l;
  }

  /** Membership: the expansion holds exactly the levels of the ec. */
  lemma {:induction false} ExpandMembership(ec: Label, p: Label)
    ensures p in Expand(ec) <==> IsCut(ec, |p|) && p == ec[..|p|]
  {
    ExpandUpToLevels(ec, |ec|);
    if IsCut(ec, |p|) && p == ec[..|p|] {
      assert ec[..|p|] in ExpandUpTo(ec, |ec|);
    }
  }

  /** The expansion is a chain: each entry is a proper prefix of the next, every
      entry but the last ends in '.', and the last is the ec itself. */
  lemma {:induction false} ExpandChain(ec: Label)
    ensures forall i :: 0 <= i < |Expand(ec)| - 1 ==>
      |Expand(ec)[i]| < |Expand(ec)[i + 1]| && Expand(ec)[i] <= Expand(ec)[i + 1]
    ensures forall i :: 0 <= i < |Expand(ec)| - 1 ==>
      Expand(ec)[i] != [] && Expand(ec)[i][|Expand(ec)[i]| - 1] == '.'
    ensures ec != [] ==> |Expand(ec)| > 0 && Expand(ec)[|Expand(ec)| - 1] == ec
    ensures ec == [] ==> Expand(ec) == []
  {
    var r := Expand(ec);
    ExpandUpToLevels(ec, |ec|);
    if ec != [] {
      assert IsCut(ec, |ec|);
      assert ec[..|ec|] in r;
      var m := |r| - 1;
      assert |r[m]| == |ec|;
    }
    forall i | 0 <= i < |r| - 1
      ensures r[i][|r[i]| - 1] == '.'
    {
      assert |r[i]| < |r[i + 1]| <= |ec|;
    }
  }

  /** Without a '.', no proper prefix of an ec is a level. */
  lemma {:induction false} NoLevelsBelow(ec: Label, n: nat)
    requires n < |ec| && '.' !in ec
    ensures ExpandUpTo(ec, n) == []
  {
    if n > 0 {
      NoLevelsBelow(ec, n - 1);
      assert ec[n - 1] in ec;
      assert !IsCut(ec, n);
    }
  }

  /** An ec without the '.' delimiter is its own, single-level expansion. */
  lemma {:induction false} ExpandUndelimited(ec: Label)
    requires ec != [] && '.' !in ec
    ensures Expand(ec) == [ec]
  {
    NoLevelsBelow(ec, |ec| - 1);
    assert IsCut(ec, |ec|);
    assert ec[..|ec|] == ec;
  }

  /** The list `__getitem__` builds: the expansions of the raw labels,
      concatenated in order, duplicates kept. */
  function ExpandAll(labels: seq<Label>): (r: seq<Label>)
    ensures |labels| > 0 && labels[|labels| - 1] != [] ==> |r| > 0 && r[|r| - 1] == labels[|labels| - 1]
  {
    if labels == [] then []
    else ExpandAll(labels[..|labels| - 1]) + Expand(labels[|labels| - 1])
  }

  /** Expansion distributes over concatenation of raw ec lists. */
  lemma {:induction false} ExpandAllAppend(a: seq<Label>, b: seq<Label>)
    ensures ExpandAll(a + b) == ExpandAll(a) + ExpandAll(b)
    decreases |b|
  {
    if b == [] {
      assert a + b == a;
    } else {
      var b', x := b[..|b| - 1], b[|b| - 1];
      assert (a + b)[..|a + b| - 1] == a + b';
      assert (a + b)[|a + b| - 1] == x;
      ExpandAllAppend(a, b');
      calc {
        ExpandAll(a + b);
        ExpandAll(a + b') + Expand(x);
        ExpandAll(a) + ExpandAll(b') + Expand(x);
        ExpandAll(a) + (ExpandAll(b') + Expand(x));
      }
    }
  }

  /** Something is in the expanded list exactly when it is a level of one of
      the raw labels. */
  lemma {:induction false} ExpandAllMembership(labels: seq<Label>, p: Label)
    ensures p in ExpandAll(labels) <==> exists ec :: ec in labels && p in Expand(ec)
  {
    if labels != [] {
      var init := labels[..|labels| - 1];
      var last := labels[|labels| - 1];
      ExpandAllMembership(init, p);
      assert labels == init + [last];
      if p in Expand(last) {
        assert last in labels;
      }
      if exists ec :: ec in labels && p in Expand(ec) {
        var ec :| ec in labels && p in Expand(ec);
        if ec != last {
          assert ec in init;
        }
      }
    }
  }

  /** Every non-empty raw ec appears, as itself, among the expanded labels. */
  lemma {:induction false} ExpandAllKeepsLabels(labels: seq<Label>, ec: Label)
    requires ec in labels && ec != []
    ensures ec in ExpandAll(labels)
  {
    ExpandChain(ec);
    ExpandAllMembership(labels, ec);
  }

  /** Shared ancestors are not merged: two sibling labels each contribute
      their common top level. */
  lemma {:induction false} ExpandAllKeepsDuplicates()
    ensures ExpandAll(["1.2", "1.3"]) == ["1.", "1.2", "1.", "1.3"]
  {
    assert Expand("1.2") == ["1.", "1.2"] by {
      assert ExpandUpTo("1.2", 1) == [];
      assert "1.2"[..2] == "1." && "1.2"[..3] == "1.2";
      assert ExpandUpTo("1.2", 2) == ["1."];
    }
    assert Expand("1.3") == ["1.", "1.3"] by {
      assert ExpandUpTo("1.3", 1) == [];
      assert "1.3"[..2] == "1." && "1.3"[..3] == "1.3";
      assert ExpandUpTo("1.3", 2) == ["1."];
    }
    assert ["1.2", "1.3"][..1] == ["1.2"];
    assert ExpandAll(["1.2"]) == ExpandAll([]) + Expand("1.2");
  }
}
