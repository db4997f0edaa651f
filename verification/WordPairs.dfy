/** Words that come in pairs: a header's (id, value) fields, a register list's (register, value) entries. */
module WordPairs {
  import opened Words

  datatype Entry = Entry(id: u32, val: u32)

  function Flat(fs: seq<Entry>): seq<u32> {
    seq(2 * |fs|, i requires 0 <= i < 2 * |fs| => if i % 2 == 0 then fs[i / 2].id else fs[i / 2].val)
  }

  function Fields(ws: seq<u32>): seq<Entry> {
    seq(|ws| / 2, i requires 0 <= i < |ws| / 2 => Entry(ws[2 * i], ws[2 * i + 1]))
  }

  lemma FlatFields(ws: seq<u32>)
    requires |ws| % 2 == 0
    ensures Flat(Fields(ws)) == ws
  {
    forall i | 0 <= i < |ws| ensures Flat(Fields(ws))[i] == ws[i] {
      assert i == 2 * (i / 2) || i == 2 * (i / 2) + 1;
    }
  }

  lemma FieldsFlat(fs: seq<Entry>)
    ensures Fields(Flat(fs)) == fs
  {
  }

  lemma FieldsSnoc(ws: seq<u32>, e: Entry)
    requires |ws| % 2 == 0
    ensures Fields(ws + [e.id, e.val]) == Fields(ws) + [e]
  {
  }
}
