/**
 * A worked document: one room "101" whose entries are titled "Acme Corp",
 * "Acme Corp" and "Beta LLC", the first with an extra "note" field. The
 * proofs are done for any room identifier, any two titles `a < b` and any
 * other fields, then applied to the sample.
 */
module Scenario {
  import opened StringOrder
  import opened Labels
  import opened Sorting
  import opened Mapping
  import opened Anonymizer

  /** One room holding entries titled `a`, `a` and `b`, with other fields `f0`, `f1`, `f2`. */
  function Doc(id: Json, a: string, b: string, f0: Fields, f1: Fields, f2: Fields): seq<Room>
  {
    [Room(Some(id), Some([Entry(Some(a), f0), Entry(Some(a), f1), Entry(Some(b), f2)]))]
  }

  /** `Doc` with the titles replaced by "A", "A" and "B". */
  function DocAnonymized(id: Json, f0: Fields, f1: Fields, f2: Fields): seq<OutRoom>
  {
    [OutRoom(id, [Entry(Some("A"), f0), Entry(Some("A"), f1), Entry(Some("B"), f2)])]
  }

  lemma DocTitles(id: Json, a: string, b: string, f0: Fields, f1: Fields, f2: Fields)
    ensures Titles(Doc(id, a, b, f0, f1, f2)) == [a, a, b]
  {
    var data := Doc(id, a, b, f0, f1, f2);
    var es := EntriesOf(data[0]);
    assert EntryTitles(es[..1]) == [a] by {
      assert es[..1][..0] == [];
    }
    assert EntryTitles(es[..2]) == [a, a] by {
      assert es[..2][..1] == es[..1];
    }
    assert EntryTitles(es) == [a, a, b] by {
      assert es[..|es| - 1] == es[..2];
    }
    assert data[..0] == [];
  }

  /** A map with exactly the keys `a` and `b` is the display of its two entries. */
  lemma MapOfTwo(m: map<string, string>, a: string, b: string)
    requires m.Keys == {a, b}
    ensures m == map[a := m[a], b := m[b]]
  {
  }

  lemma FirstLabels()
    ensures Label(0) == "A" && Label(1) == "B"
  {
  }

  /** Two titles `a < b`, however often each occurs: the mapping is `{a: "A", b: "B"}`. */
  lemma TwoTitlesMapping(titles: seq<string>, a: string, b: string)
    requires LexLess(a, b) && Elems(titles) == {a, b}
    ensures BuildMapping(titles) == map[a := "A", b := "B"]
  {
    var sorted := [a, b];
    assert Elems(sorted) == {a, b};
    BuildMappingRank(titles, sorted);
    FirstLabels();
    MapOfTwo(BuildMapping(titles), a, b);
  }

  /** Under `{a: "A", b: "B"}`, the room of `Doc` becomes the room of `DocAnonymized`. */
  lemma DocRoomRewritten(id: Json, a: string, b: string, f0: Fields, f1: Fields, f2: Fields, m: map<string, string>)
    requires a != b && m == map[a := "A", b := "B"]
    ensures RoomRewritten(Doc(id, a, b, f0, f1, f2)[0], DocAnonymized(id, f0, f1, f2)[0], m)
  {
  }

  lemma DocAnonymizedIsAnonymization(id: Json, a: string, b: string, f0: Fields, f1: Fields, f2: Fields)
    requires LexLess(a, b)
    ensures IsAnonymization(Doc(id, a, b, f0, f1, f2), DocAnonymized(id, f0, f1, f2))
  {
    var data := Doc(id, a, b, f0, f1, f2);
    DocTitles(id, a, b, f0, f1, f2);
    assert Elems(Titles(data)) == {a, b};
    TwoTitlesMapping(Titles(data), a, b);
    LexLessIrreflexive(a);
    DocRoomRewritten(id, a, b, f0, f1, f2, TitleMapping(data));
  }

  /** Any anonymized copy of `Doc` is `DocAnonymized`. */
  lemma DocAnonymization(id: Json, a: string, b: string, f0: Fields, f1: Fields, f2: Fields, out: seq<OutRoom>)
    requires LexLess(a, b)
    requires IsAnonymization(Doc(id, a, b, f0, f1, f2), out)
    ensures out == DocAnonymized(id, f0, f1, f2)
  {
    DocAnonymizedIsAnonymization(id, a, b, f0, f1, f2);
    AnonymizationUnique(Doc(id, a, b, f0, f1, f2), out, DocAnonymized(id, f0, f1, f2));
  }

  function SampleInput(): seq<Room>
  {
    Doc(JString("101"), "Acme Corp", "Beta LLC", map["note" := JString("x")], map[], map[])
  }

  function SampleOutput(): seq<OutRoom>
  {
    DocAnonymized(JString("101"), map["note" := JString("x")], map[], map[])
  }

  /** The sample comes out with titles A, A and B and everything else as it was. */
  lemma SampleAnonymization(out: seq<OutRoom>)
    requires IsAnonymization(SampleInput(), out)
    ensures out == SampleOutput()
  {
    assert LexLess("Acme Corp", "Beta LLC");
    DocAnonymization(JString("101"), "Acme Corp", "Beta LLC", map["note" := JString("x")], map[], map[], out);
  }
}
