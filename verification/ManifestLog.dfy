/**
 The manifest as bytes: `VersionSet::Recover` decodes each record and applies it
 to one builder.
 */
module ManifestLog {
  import opened Basics
  import opened DbFormat
  import opened Version
  import opened VersionBuilder
  import opened Manifest
  import Comparator
  import EditCodec
  import Codec = VersionEdit

  /** The key that eight or more bytes stand for. */
  function KeyOf(k: Bytes): InternalKey {
    if |k| < 8 then InternalKey(0.0, 0, Deletion)
    else
      var tag := Comparator.TagPart(k);
      Comparator.Abstract(Comparator.UserPart(k), tag / 256, if tag % 256 == 1 then Value else Deletion)
  }

  lemma KeyOfEncoded(user: Bytes, sequence: nat, kind: ValueType)
    requires sequence <= MAX_SEQUENCE
    ensures KeyOf(Comparator.EncodeKey(user, sequence, kind)) == Comparator.Abstract(user, sequence, kind)
  {
    Comparator.PartsOf(user, sequence, kind);
  }

  /** A file entry of an edit, with the contents of the table it names. */
  function FileOf(f: EditCodec.NewFile, contents: nat -> seq<Entry>): (nat, FileMeta) {
    (f.level, FileMeta(f.number, f.size, KeyOf(f.smallest), KeyOf(f.largest), contents(f.number)))
  }

  function FilesOf(fs: seq<EditCodec.NewFile>, contents: nat -> seq<Entry>): (r: seq<(nat, FileMeta)>)
    ensures |r| == |fs|
  {
    if fs == [] then [] else FilesOf(fs[..|fs| - 1], contents) + [FileOf(fs[|fs| - 1], contents)]
  }

  /** What a decoded edit says about the levels. */
  function EditOf(e: Codec.Edit, contents: nat -> seq<Entry>): Edit {
    Edit((set d | d in e.deleted), FilesOf(e.added, contents))
  }

  function EditsOf(es: seq<Codec.Edit>, contents: nat -> seq<Entry>): (r: seq<Edit>)
    ensures |r| == |es|
  {
    if es == [] then [] else EditsOf(es[..|es| - 1], contents) + [EditOf(es[|es| - 1], contents)]
  }

  /** The record is what `EncodeTo` writes for the edit. */
  ghost predicate Encoded(record: Bytes, e: Codec.Edit, pieces: seq<Bytes>) {
    Codec.Encodes(record, pieces, Codec.Items(e)) && Codec.PairsAscend(e.deleted)
  }

  ghost predicate AllEncoded(records: seq<Bytes>, es: seq<Codec.Edit>, pieces: seq<seq<Bytes>>) {
    |records| == |es| == |pieces| && forall i :: 0 <= i < |es| ==> Encoded(records[i], es[i], pieces[i])
  }

  method DecodeAll(records: seq<Bytes>, ghost es: seq<Codec.Edit>, ghost pieces: seq<seq<Bytes>>) returns (decoded: seq<Codec.Edit>)
    requires AllEncoded(records, es, pieces)
    ensures decoded == es
  {
    hide Codec.Scan, Codec.Encodes;
    decoded := [];
    for i := 0 to |records|
      invariant decoded == es[..i]
    {
      assert Encoded(records[i], es[i], pieces[i]);
      var v := new Codec.VersionEdit();
      var ok := v.DecodeFrom(records[i]);
      Codec.ScansEncoding(records[i], pieces[i], Codec.Items(es[i]));
      Codec.ItemsRebuild(es[i]);
      decoded := decoded + [v.edit];
    }
  }

  /** Reading a manifest back, from its bytes, rebuilds the version that was current when its last record was written. */
  method RecoverFromRecords(records: seq<Bytes>, contents: nat -> seq<Entry>, ghost es: seq<Codec.Edit>, ghost pieces: seq<seq<Bytes>>,
                            ghost vs: seq<Levels>)
    returns (w: Levels)
    requires AllEncoded(records, es, pieces) && |es| > 0
    requires var edits := EditsOf(es, contents);
             LegalChain(vs, edits[1..]) && SnapshotOf(vs[0], edits[0]) && NeverAddedTwice(edits)
    ensures w == vs[|es| - 1]
  {
    var decoded := DecodeAll(records, es, pieces);
    var edits := EditsOf(decoded, contents);
    assert [edits[0]] + edits[1..] == edits;
    w := RecoverCurrent(edits[0], edits[1..], vs);
  }
}
