/**
 * `anonymize`: collects every title of every entry of every room, builds the
 * title-to-label mapping from them, and returns a new list of rooms in which
 * each entry is a copy of the original with its title replaced by its label.
 * The document is taken as already parsed from JSON.
 */
module Anonymizer {
  import opened Labels
  import opened Sorting
  import opened Mapping

  datatype Option<T> = None | Some(value: T)

  /** A JSON value the anonymizer passes through without looking inside. */
  datatype Json =
    | JNull
    | JBool(b: bool)
    | JNumber(literal: string)
    | JString(s: string)
    | JArray(items: seq<Json>)
    | JObject(members: map<string, Json>)

  /** The keys of an entry object other than `title`, with their values. */
  type Fields = m: map<string, Json> | "title" !in m witness map[]

  /** An entry object: its `title` key, if it has one, and all its other keys. */
  datatype Entry = Entry(title: Option<string>, others: Fields)

  /** An input room: the values of its `room` and `entries` keys, each possibly absent. */
  datatype Room = Room(room: Option<Json>, entries: Option<seq<Entry>>)

  /** An output room: exactly the keys `room` and `entries`. */
  datatype OutRoom = OutRoom(room: Json, entries: seq<Entry>)

  /** `room.get("entries", [])`. */
  function EntriesOf(r: Room): (es: seq<Entry>)
    ensures r.entries == Some(es) || (r.entries == None && es == [])
  {
    match r.entries
    case Some(es) => es
    case None => []
  }

  /** `room.get("room")`: null when the key is absent. */
  function RoomId(r: Room): (id: Json)
    ensures r.room == Some(id) || (r.room == None && id == JNull)
  {
    match r.room
    case Some(id) => id
    case None => JNull
  }

  /** The titles of `entries`, in order, skipping entries without one. */
  function EntryTitles(entries: seq<Entry>): (titles: seq<string>)
    ensures |titles| <= |entries|
    ensures forall j :: 0 <= j < |entries| && entries[j].title.Some? ==> entries[j].title.value in titles
  {
    if entries == [] then []
    else
      var n := |entries| - 1;
      var init := entries[..n];
      assert forall j :: 0 <= j < n ==> init[j] == entries[j];
      EntryTitles(init) + (if entries[n].title.Some? then [entries[n].title.value] else [])
  }

  /** The `titles` list of the first loop of `anonymize`. */
  function Titles(data: seq<Room>): (titles: seq<string>)
    ensures forall i, j :: 0 <= i < |data| && 0 <= j < |EntriesOf(data[i])| && EntriesOf(data[i])[j].title.Some? ==>
              EntriesOf(data[i])[j].title.value in titles
  {
    if data == [] then []
    else
      var n := |data| - 1;
      var init := data[..n];
      assert forall i :: 0 <= i < n ==> init[i] == data[i];
      Titles(init) + EntryTitles(EntriesOf(data[n]))
  }

  /** Some entry of `entries` carries title `t`. */
  ghost predicate InEntries(entries: seq<Entry>, t: string)
  {
    exists j :: 0 <= j < |entries| && entries[j].title == Some(t)
  }

  /** Some entry of some room of `data` carries title `t`. */
  ghost predicate HasTitle(data: seq<Room>, t: string)
  {
    exists i :: 0 <= i < |data| && InEntries(EntriesOf(data[i]), t)
  }

  lemma {:induction false} EntryTitlesElems(entries: seq<Entry>, t: string)
    ensures t in EntryTitles(entries) <==> InEntries(entries, t)
  {
    if entries != [] {
      var n := |entries| - 1;
      var init := entries[..n];
      assert EntryTitles(entries) == EntryTitles(init) + (if entries[n].title.Some? then [entries[n].title.value] else []);
      EntryTitlesElems(init, t);
      if InEntries(init, t) {
        var j :| 0 <= j < n && init[j].title == Some(t);
        assert entries[j] == init[j];
      }
      if InEntries(entries, t) {
        var j :| 0 <= j < |entries| && entries[j].title == Some(t);
        if j < n {
          assert init[j] == entries[j];
        }
      }
    }
  }

  /** The collected titles are exactly the titles present in the document. */
  lemma {:induction false} TitlesElems(data: seq<Room>, t: string)
    ensures t in Titles(data) <==> HasTitle(data, t)
  {
    if data != [] {
      var n := |data| - 1;
      var init := data[..n];
      assert Titles(data) == Titles(init) + EntryTitles(EntriesOf(data[n]));
      TitlesElems(init, t);
      EntryTitlesElems(EntriesOf(data[n]), t);
      if HasTitle(init, t) {
        var i :| 0 <= i < n && InEntries(EntriesOf(init[i]), t);
        assert data[i] == init[i];
      }
      if HasTitle(data, t) {
        var i :| 0 <= i < |data| && InEntries(EntriesOf(data[i]), t);
        if i < n {
          assert init[i] == data[i];
        }
      }
    }
  }

  /** The first loop of `anonymize`: every title of every entry, in document order. */
  method CollectTitles(data: seq<Room>) returns (titles: seq<string>)
    ensures titles == Titles(data)
    ensures forall t :: t in titles <==> HasTitle(data, t)
  {
    titles := [];
    var r := 0;
    while r < |data|
      invariant 0 <= r <= |data|
      invariant titles == Titles(data[..r])
    {
      var entries := EntriesOf(data[r]);
      var k := 0;
      while k < |entries|
        invariant 0 <= k <= |entries|
        invariant titles == Titles(data[..r]) + EntryTitles(entries[..k])
      {
        assert entries[..k + 1][..k] == entries[..k];
        if entries[k].title.Some? {
          titles := titles + [entries[k].title.value];
        }
        k := k + 1;
      }
      assert entries[..k] == entries;
      assert data[..r + 1][..r] == data[..r];
      r := r + 1;
    }
    assert data[..r] == data;
    forall t
      ensures t in titles <==> HasTitle(data, t)
    {
      TitlesElems(data, t);
    }
  }

  /** The `mapping` that `anonymize` builds from the collected titles. */
  function TitleMapping(data: seq<Room>): (m: map<string, string>)
    ensures forall i, j :: 0 <= i < |data| && 0 <= j < |EntriesOf(data[i])| && EntriesOf(data[i])[j].title.Some? ==>
              EntriesOf(data[i])[j].title.value in m
  {
    BuildMapping(Titles(data))
  }

  /**
   * `o` is what the copy-then-overwrite step makes of `e`: `dict(entry)`, with
   * the title replaced when the mapping has it.
   */
  ghost predicate Copied(e: Entry, o: Entry, m: map<string, string>)
  {
    && o.others == e.others
    && o.title == if e.title.Some? && e.title.value in m then Some(m[e.title.value]) else e.title
  }

  /**
   * `o` is the anonymized copy of `e` under `m`: every other key unchanged, no
   * title added, and a title present replaced by its label.
   */
  ghost predicate Rewritten(e: Entry, o: Entry, m: map<string, string>)
  {
    && o.others == e.others
    && (e.title.None? ==> o.title.None?)
    && (e.title.Some? ==> e.title.value in m && o.title == Some(m[e.title.value]))
  }

  /** `o` is the output room made from `room`: same identifier, each entry copied in order. */
  ghost predicate RoomCopied(room: Room, o: OutRoom, m: map<string, string>)
  {
    && o.room == RoomId(room)
    && |o.entries| == |EntriesOf(room)|
    && forall j :: 0 <= j < |EntriesOf(room)| ==> Copied(EntriesOf(room)[j], o.entries[j], m)
  }

  /** As `RoomCopied`, with every title replaced. */
  ghost predicate RoomRewritten(room: Room, o: OutRoom, m: map<string, string>)
  {
    && o.room == RoomId(room)
    && |o.entries| == |EntriesOf(room)|
    && forall j :: 0 <= j < |EntriesOf(room)| ==> Rewritten(EntriesOf(room)[j], o.entries[j], m)
  }

  /** `out` is an anonymized copy of the whole document `data`. */
  ghost predicate IsAnonymization(data: seq<Room>, out: seq<OutRoom>)
  {
    && |out| == |data|
    && forall i :: 0 <= i < |data| ==> RoomRewritten(data[i], out[i], TitleMapping(data))
  }

  /** There is only one anonymized copy of a document: the result is determined by the input. */
  lemma AnonymizationUnique(data: seq<Room>, out1: seq<OutRoom>, out2: seq<OutRoom>)
    requires IsAnonymization(data, out1) && IsAnonymization(data, out2)
    ensures out1 == out2
  {
    var m := TitleMapping(data);
    forall i | 0 <= i < |data|
      ensures out1[i] == out2[i]
    {
      assert RoomRewritten(data[i], out1[i], m) && RoomRewritten(data[i], out2[i], m);
      forall j | 0 <= j < |EntriesOf(data[i])|
        ensures out1[i].entries[j] == out2[i].entries[j]
      {
        assert Rewritten(EntriesOf(data[i])[j], out1[i].entries[j], m);
        assert Rewritten(EntriesOf(data[i])[j], out2[i].entries[j], m);
      }
      assert out1[i].entries == out2[i].entries;
    }
  }

  /**
   * The inner loop of the second pass of `anonymize`: a new room with the
   * identifier of `room` and a copy of each of its entries.
   */
  method AnonymizeRoom(room: Room, mapping: map<string, string>) returns (newRoom: OutRoom)
    ensures newRoom.room == RoomId(room)
    ensures |newRoom.entries| == |EntriesOf(room)|
    ensures forall j :: 0 <= j < |EntriesOf(room)| ==> newRoom.entries[j].others == EntriesOf(room)[j].others
    ensures forall j :: 0 <= j < |EntriesOf(room)| ==>
              newRoom.entries[j].title == match EntriesOf(room)[j].title
                                          case Some(t) => if t in mapping then Some(mapping[t]) else Some(t)
                                          case None => None
  {
    newRoom := OutRoom(RoomId(room), []);
    var entries := EntriesOf(room);
    var k := 0;
    while k < |entries|
      invariant 0 <= k <= |entries|
      invariant newRoom.room == RoomId(room) && |newRoom.entries| == k
      invariant forall j :: 0 <= j < k ==> Copied(entries[j], newRoom.entries[j], mapping)
    {
      var entry := entries[k];
      var newEntry := entry;
      var title := entry.title;
      if title.Some? && title.value in mapping {
        newEntry := newEntry.(title := Some(mapping[title.value]));
      }
      newRoom := newRoom.(entries := newRoom.entries + [newEntry]);
      k := k + 1;
    }
  }

  /** Since the mapping covers every collected title, every copied entry has its title replaced. */
  lemma CopiedIsRewritten(data: seq<Room>, out: seq<OutRoom>)
    requires |out| == |data|
    requires forall i :: 0 <= i < |data| ==> RoomCopied(data[i], out[i], TitleMapping(data))
    ensures forall i :: 0 <= i < |data| ==> RoomRewritten(data[i], out[i], TitleMapping(data))
  {
  }

  /**
   * In an output whose rooms are rewritten under the mapping of the input's
   * titles, every new title is a label, and two titled entries, in any rooms,
   * get the same label exactly when they had the same title.
   */
  lemma RelabelingConsistent(data: seq<Room>, out: seq<OutRoom>)
    requires |out| == |data|
    requires forall i :: 0 <= i < |data| ==> RoomRewritten(data[i], out[i], TitleMapping(data))
    requires forall i :: 0 <= i < |data| ==> |out[i].entries| == |EntriesOf(data[i])|
    ensures forall i, j :: 0 <= i < |data| && 0 <= j < |EntriesOf(data[i])| && out[i].entries[j].title.Some? ==>
              out[i].entries[j].title.value != [] && IsLetters(out[i].entries[j].title.value)
    ensures forall i1, j1, i2, j2 ::
              && 0 <= i1 < |data| && 0 <= j1 < |EntriesOf(data[i1])|
              && 0 <= i2 < |data| && 0 <= j2 < |EntriesOf(data[i2])|
              && EntriesOf(data[i1])[j1].title.Some? && EntriesOf(data[i2])[j2].title.Some?
              ==> (EntriesOf(data[i1])[j1].title == EntriesOf(data[i2])[j2].title
                   <==> out[i1].entries[j1].title == out[i2].entries[j2].title)
  {
    var titles := Titles(data);
    forall i, j | 0 <= i < |data| && 0 <= j < |EntriesOf(data[i])| && out[i].entries[j].title.Some?
      ensures out[i].entries[j].title.value != [] && IsLetters(out[i].entries[j].title.value)
    {
      assert RoomRewritten(data[i], out[i], TitleMapping(data));
      var t := EntriesOf(data[i])[j].title.value;
      BuildMappingLabels(titles, t);
    }
    forall i1, j1, i2, j2 |
      && 0 <= i1 < |data| && 0 <= j1 < |EntriesOf(data[i1])|
      && 0 <= i2 < |data| && 0 <= j2 < |EntriesOf(data[i2])|
      && EntriesOf(data[i1])[j1].title.Some? && EntriesOf(data[i2])[j2].title.Some?
      && EntriesOf(data[i1])[j1].title != EntriesOf(data[i2])[j2].title
      ensures out[i1].entries[j1].title != out[i2].entries[j2].title
    {
      assert RoomRewritten(data[i1], out[i1], TitleMapping(data));
      assert RoomRewritten(data[i2], out[i2], TitleMapping(data));
      var t1, t2 := EntriesOf(data[i1])[j1].title.value, EntriesOf(data[i2])[j2].title.value;
      BuildMappingInjective(titles, t1, t2);
    }
  }

  /** `anonymize(data)`: a new list of rooms; `data` itself is a value and stays as it was. */
  method Anonymize(data: seq<Room>) returns (anonymized: seq<OutRoom>)
    ensures |anonymized| == |data|
    ensures forall i :: 0 <= i < |data| ==> RoomRewritten(data[i], anonymized[i], TitleMapping(data))
    ensures IsAnonymization(data, anonymized)
    ensures forall i, j :: 0 <= i < |data| && 0 <= j < |EntriesOf(data[i])| && anonymized[i].entries[j].title.Some? ==>
              anonymized[i].entries[j].title.value != [] && IsLetters(anonymized[i].entries[j].title.value)
    ensures forall i1, j1, i2, j2 ::
              && 0 <= i1 < |data| && 0 <= j1 < |EntriesOf(data[i1])|
              && 0 <= i2 < |data| && 0 <= j2 < |EntriesOf(data[i2])|
              && EntriesOf(data[i1])[j1].title.Some? && EntriesOf(data[i2])[j2].title.Some?
              ==> (EntriesOf(data[i1])[j1].title == EntriesOf(data[i2])[j2].title
                   <==> anonymized[i1].entries[j1].title == anonymized[i2].entries[j2].title)
  {
    var titles := CollectTitles(data);
    var mapping := BuildMapping(titles);

    anonymized := [];
    var r := 0;
    while r < |data|
      invariant 0 <= r <= |data| && |anonymized| == r
      invariant forall i :: 0 <= i < r ==> RoomCopied(data[i], anonymized[i], mapping)
    {
      var newRoom := AnonymizeRoom(data[r], mapping);
      assert RoomCopied(data[r], newRoom, mapping);
      ghost var before := anonymized;
      anonymized := anonymized + [newRoom];
      forall i | 0 <= i <= r
        ensures RoomCopied(data[i], anonymized[i], mapping)
      {
        if i < r {
          assert anonymized[i] == before[i];
        }
      }
      r := r + 1;
    }
    CopiedIsRewritten(data, anonymized);
    RelabelingConsistent(data, anonymized);
  }
}
