/** The sample tree built by index.php:12-29, used as a concrete check of the model. */
module Demo {
  import opened Graph
  import opened Generations
  import opened Labels

  /** The relations index.php adds, in order. */
  function DemoRelations(): seq<Relation>
  {
    [ Relation(1, 2, Spouse), Relation(1, 3, Child), Relation(2, 3, Child), Relation(3, 4, Spouse),
      Relation(4, 6, Sibling), Relation(3, 5, Child), Relation(4, 5, Child) ]
  }

  /** The spouse table of the sample holds 1-2 and 3-4, each in both directions. */
  lemma DemoSpousePairs(rels: seq<Relation>)
    requires rels == DemoRelations()
    ensures AdjPairs(rels, Spouse) == [(1, 2), (2, 1), (3, 4), (4, 3)]
  {
    DemoSpouseTable();
    DemoSpouseOrder();
    ReplayPairs(rels, Spouse, [1, 2, 3, 4], map[1 := [2], 2 := [1], 3 := [4], 4 := [3]]);
  }

  lemma DemoSpouseOrder()
    ensures Flatten([1, 2, 3, 4], map[1 := [2], 2 := [1], 3 := [4], 4 := [3]]) == [(1, 2), (2, 1), (3, 4), (4, 3)]
  {
  }

  lemma DemoSpouseTable()
    ensures Replay([], map[], DemoRelations(), Spouse) == ([1, 2, 3, 4], map[1 := [2], 2 := [1], 3 := [4], 4 := [3]])
  {
    var rels := DemoRelations();
    var m1 := map[1 := [2], 2 := [1]];
    var m2 := map[1 := [2], 2 := [1], 3 := [4], 4 := [3]];
    var k2 := [1, 2, 3, 4];
    assert Replay(k2, m2, rels[7..], Spouse) == (k2, m2);
    assert rels[6..][1..] == rels[7..];
    assert Replay(k2, m2, rels[6..], Spouse) == (k2, m2);
    assert rels[5..][1..] == rels[6..];
    assert Replay(k2, m2, rels[5..], Spouse) == (k2, m2);
    assert rels[4..][1..] == rels[5..];
    assert Replay(k2, m2, rels[4..], Spouse) == (k2, m2);
    assert rels[3..][1..] == rels[4..];
    assert Put(Put(m1, 3, 4), 4, 3) == m2;
    assert AddKey(AddKey([1, 2], 3), 4) == k2;
    assert rels[3..][0] == Relation(3, 4, Spouse);
    assert Replay([1, 2], m1, rels[3..], Spouse) == (k2, m2);
    assert rels[2..][1..] == rels[3..];
    assert Replay([1, 2], m1, rels[2..], Spouse) == (k2, m2);
    assert rels[1..][1..] == rels[2..];
    assert Replay([1, 2], m1, rels[1..], Spouse) == (k2, m2);
    assert Put(Put(map[], 1, 2), 2, 1) == m1;
    assert AddKey(AddKey([], 1), 2) == [1, 2];
    assert rels[0] == Relation(1, 2, Spouse);
  }

  /** The sibling table of the sample holds 4-6 in both directions. */
  lemma DemoSiblingPairs(rels: seq<Relation>)
    requires rels == DemoRelations()
    ensures AdjPairs(rels, Sibling) == [(4, 6), (6, 4)]
  {
    DemoSiblingTable();
    DemoSiblingOrder();
    ReplayPairs(rels, Sibling, [4, 6], map[4 := [6], 6 := [4]]);
  }

  lemma DemoSiblingOrder()
    ensures Flatten([4, 6], map[4 := [6], 6 := [4]]) == [(4, 6), (6, 4)]
  {
  }

  lemma DemoSiblingTable()
    ensures Replay([], map[], DemoRelations(), Sibling) == ([4, 6], map[4 := [6], 6 := [4]])
  {
    var rels := DemoRelations();
    var m := map[4 := [6], 6 := [4]];
    var k := [4, 6];
    assert Replay(k, m, rels[7..], Sibling) == (k, m);
    assert rels[6..][1..] == rels[7..];
    assert Replay(k, m, rels[6..], Sibling) == (k, m);
    assert rels[5..][1..] == rels[6..];
    assert Replay(k, m, rels[5..], Sibling) == (k, m);
    assert rels[4..][1..] == rels[5..];
    assert Put(Put(map[], 4, 6), 6, 4) == m;
    assert AddKey(AddKey([], 4), 6) == k;
    assert rels[4..][0] == Relation(4, 6, Sibling);
    assert Replay([], map[], rels[4..], Sibling) == (k, m);
    assert rels[3..][1..] == rels[4..];
    assert Replay([], map[], rels[3..], Sibling) == (k, m);
    assert rels[2..][1..] == rels[3..];
    assert Replay([], map[], rels[2..], Sibling) == (k, m);
    assert rels[1..][1..] == rels[2..];
    assert Replay([], map[], rels[1..], Sibling) == (k, m);
  }

  /** The generations the sample settles on. */
  function DemoRows(): map<int, int>
  {
    map[1 := 0, 2 := 0, 3 := 1, 4 := 1, 5 := 2, 6 := 1]
  }

  /** The first pass's child edges: 1 and 2 are seeded at 0, 3 and 5 pushed below them, 4 seeded at 0. */
  lemma DemoFirstChildPhase()
    ensures ChildPhase(map[], false, DemoRelations()) == (map[1 := 0, 3 := 1, 2 := 0, 5 := 2, 4 := 0], true)
  {
  }

  /** The first pass's symmetric edges: 4 is lifted to 3's row, and 6 copies 4's. */
  lemma DemoFirstEqualize()
    ensures EqualizePhase(map[1 := 0, 3 := 1, 2 := 0, 5 := 2, 4 := 0], true, [(1, 2), (2, 1), (3, 4), (4, 3)])
         == (map[1 := 0, 3 := 1, 2 := 0, 5 := 2, 4 := 1], true)
    ensures EqualizePhase(map[1 := 0, 3 := 1, 2 := 0, 5 := 2, 4 := 1], true, [(4, 6), (6, 4)]) == (DemoRows(), true)
  {
    var g1 := map[1 := 0, 3 := 1, 2 := 0, 5 := 2, 4 := 0];
    var g2 := map[1 := 0, 3 := 1, 2 := 0, 5 := 2, 4 := 1];
    assert g1[3 := 1][4 := 1] == g2;
    assert EqualizeStep(g1, true, (3, 4)) == (g2, true);
    assert EqualizePhase(g2, true, [(4, 3)]) == (g2, true);
    assert g2[6 := 1] == DemoRows();
    assert EqualizeStep(g2, true, (4, 6)) == (DemoRows(), true);
    assert EqualizePhase(DemoRows(), true, [(6, 4)]) == (DemoRows(), true);
  }

  /** The first pass assigns every row and reports a change. */
  lemma DemoFirstPass(rels: seq<Relation>)
    requires rels == DemoRelations()
    ensures Pass(map[], rels) == (DemoRows(), true)
  {
    DemoSpousePairs(rels);
    DemoSiblingPairs(rels);
    DemoFirstChildPhase();
    DemoFirstEqualize();
  }

  /** The second pass's phases leave every row as it is. */
  lemma DemoSecondPhases()
    ensures ChildPhase(DemoRows(), false, DemoRelations()) == (DemoRows(), false)
    ensures EqualizePhase(DemoRows(), false, [(1, 2), (2, 1), (3, 4), (4, 3)]) == (DemoRows(), false)
    ensures EqualizePhase(DemoRows(), false, [(4, 6), (6, 4)]) == (DemoRows(), false)
  {
  }

  /** The second pass changes nothing. */
  lemma DemoSecondPass(rels: seq<Relation>)
    requires rels == DemoRelations()
    ensures Pass(DemoRows(), rels) == (DemoRows(), false)
  {
    DemoSpousePairs(rels);
    DemoSiblingPairs(rels);
    DemoSecondPhases();
  }

  /** The pass loop stops after the second pass, which changed nothing. */
  lemma DemoIterate(rels: seq<Relation>)
    requires rels == DemoRelations()
    ensures Iterate(map[], 0, true, rels) == Outcome(DemoRows(), 2, true)
  {
    DemoFirstPass(rels);
    DemoSecondPass(rels);
    assert Iterate(DemoRows(), 1, true, rels) == Iterate(DemoRows(), 2, false, rels);
  }

  /** Inference converges after two passes on the sample and puts 1, 2 / 3, 4, 6 / 5 on three rows. */
  lemma DemoGenerations(rels: seq<Relation>)
    requires rels == DemoRelations()
    ensures Converges(rels)
    ensures Infer({1, 2, 3, 4, 5, 6}, rels) == DemoRows()
  {
    DemoIterate(rels);
    DemoFallback();
  }

  /** Every sample member is assigned by the loop, so the fallback adds nothing. */
  lemma DemoFallback()
    ensures Fallback(DemoRows(), {1, 2, 3, 4, 5, 6}) == DemoRows()
  {
    var h := Fallback(DemoRows(), {1, 2, 3, 4, 5, 6});
    assert DemoRows().Keys == {1, 2, 3, 4, 5, 6};
    assert h.Keys == DemoRows().Keys;
  }

  /** The words of the longest sample name (index.php:27). */
  const LongName := ["Sir", "Galahad", "of", "the", "Silvermoon", "Bastion"]

  /** The six words joined with single spaces spell the name as written in the demo. */
  lemma DemoName()
    ensures Join(LongName) == "Sir Galahad of the Silvermoon Bastion"
  {
    DemoNameHalves();
    JoinAppend(["Sir", "Galahad", "of"], ["the", "Silvermoon", "Bastion"]);
    DemoNameHead();
    DemoNameTail();
    DemoNameGlue();
  }

  lemma DemoNameHalves()
    ensures LongName == ["Sir", "Galahad", "of"] + ["the", "Silvermoon", "Bastion"]
  {
  }

  lemma DemoNameGlue()
    ensures "Sir Galahad of" + " " + "the Silvermoon Bastion" == "Sir Galahad of the Silvermoon Bastion"
  {
  }

  lemma DemoNameHead()
    ensures Join(["Sir", "Galahad", "of"]) == "Sir Galahad of"
  {
    assert "Galahad" + " " + "of" == "Galahad of";
    assert "Sir" + " " + "Galahad of" == "Sir Galahad of";
  }

  lemma DemoNameTail()
    ensures Join(["the", "Silvermoon", "Bastion"]) == "the Silvermoon Bastion"
  {
    assert "Silvermoon" + " " + "Bastion" == "Silvermoon Bastion";
    assert "the" + " " + "Silvermoon Bastion" == "the Silvermoon Bastion";
  }

  /** Splitting the joined name gives its six words back. */
  lemma DemoWords()
    ensures Explode(Join(LongName)) == LongName
  {
    ExplodeJoin(LongName);
  }

  lemma DemoLine1()
    ensures WrapFrom([], "", ["Sir", "Galahad", "of", "the", "Silvermoon", "Bastion"]) == WrapFrom([], "Sir", ["Galahad", "of", "the", "Silvermoon", "Bastion"])
  {
    WrapStarts("Sir", ["Galahad", "of", "the", "Silvermoon", "Bastion"]);
  }

  lemma DemoLine2()
    ensures WrapFrom([], "Sir", ["Galahad", "of", "the", "Silvermoon", "Bastion"]) == WrapFrom([], "Sir Galahad", ["of", "the", "Silvermoon", "Bastion"])
  {
    assert "Sir" + " " + "Galahad" == "Sir Galahad";
    assert ["Galahad"] + ["of", "the", "Silvermoon", "Bastion"] == ["Galahad", "of", "the", "Silvermoon", "Bastion"];
    WrapJoins([], "Sir", "Galahad", ["of", "the", "Silvermoon", "Bastion"]);
  }

  lemma DemoLine3()
    ensures WrapFrom([], "Sir Galahad", ["of", "the", "Silvermoon", "Bastion"]) == WrapFrom([], "Sir Galahad of", ["the", "Silvermoon", "Bastion"])
  {
    assert "Sir Galahad" + " " + "of" == "Sir Galahad of";
    assert ["of"] + ["the", "Silvermoon", "Bastion"] == ["of", "the", "Silvermoon", "Bastion"];
    WrapJoins([], "Sir Galahad", "of", ["the", "Silvermoon", "Bastion"]);
  }

  lemma DemoLine4()
    ensures WrapFrom([], "Sir Galahad of", ["the", "Silvermoon", "Bastion"]) == WrapFrom(["Sir Galahad of"], "the", ["Silvermoon", "Bastion"])
  {
    assert ["the"] + ["Silvermoon", "Bastion"] == ["the", "Silvermoon", "Bastion"];
    WrapBreaks([], "Sir Galahad of", "the", ["Silvermoon", "Bastion"]);
  }

  lemma DemoLine5()
    ensures WrapFrom(["Sir Galahad of"], "the", ["Silvermoon", "Bastion"]) == WrapFrom(["Sir Galahad of"], "the Silvermoon", ["Bastion"])
  {
    assert "the" + " " + "Silvermoon" == "the Silvermoon";
    assert ["Silvermoon"] + ["Bastion"] == ["Silvermoon", "Bastion"];
    WrapJoins(["Sir Galahad of"], "the", "Silvermoon", ["Bastion"]);
  }

  lemma DemoLine6()
    ensures WrapFrom(["Sir Galahad of"], "the Silvermoon", ["Bastion"]) == ["Sir Galahad of", "the Silvermoon", "Bastion"]
  {
    assert ["Bastion"] + [] == ["Bastion"];
    WrapBreaks(["Sir Galahad of"], "the Silvermoon", "Bastion", []);
  }

  /** The longest sample name wraps onto three lines, so its box is 52 high. */
  lemma DemoLabel()
    ensures Wrap(Join(LongName)) == ["Sir Galahad of", "the Silvermoon", "Bastion"]
    ensures BoxHeight(|Wrap(Join(LongName))|) == 52
  {
    DemoWords();
    DemoLine1();
    DemoLine2();
    DemoLine3();
    DemoLine4();
    DemoLine5();
    DemoLine6();
  }
}
