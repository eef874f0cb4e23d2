/** Opening a file and reading a record: the header text is matched with the reader's own
    model text, and the record is decoded with the codons that come out. */
module Reader {
  import opened Slices
  import opened Xdr
  import opened Model
  import opened TagText
  import opened Sequencer
  import opened Evolution
  import HostLists
  import opened Document

  // The codon tree for the genes g, as push_back copies it together.
  method Transcribe(g: Gene) returns (c: Codon)
    ensures c.Valid() && c.gene == g && fresh(c.repr)
    decreases g
  {
    var kids: seq<Codon> := [];
    for i := 0 to |g.sequence|
      invariant |kids| == i
      invariant forall j :: 0 <= j < i ==> kids[j].Valid() && kids[j].gene == g.sequence[j] && fresh(kids[j].repr)
    {
      var kid := Transcribe(g.sequence[i]);
      kids := kids + [kid];
    }
    c := new Codon(g.order, g.tagname, kids);
    assert c.gene.sequence == g.sequence;
  }

  // A document in normal form whose root is HDDM.
  predicate Header(m: Tag) {
    && NormalTree(m) && NoSelfNesting(m) && m.name == "HDDM" && m.attrs != []
    && |Print(m, 0)| < NPOS
  }

  lemma HeaderIsWhole(m: Tag)
    requires Header(m)
    ensures Whole(Print(m, 0), 0, m, 0)
  {
    var s := Print(m, 0);
    AtSlice(s, 0, |s|);
    assert s[0..|s|] == s;
  }

  // Two roots always match, whatever their attributes.
  lemma RootsMatch(w: Tag, r: Tag)
    requires Header(w) && Header(r)
    ensures TagsMatch(OpenTag(w), OpenTag(r))
  {
    RootPrefix(w);
    RootPrefix(r);
  }

  lemma RootPrefix(m: Tag)
    requires m.name == "HDDM" && m.attrs != []
    ensures StartsWith(OpenTag(m), "<HDDM ")
  {
    var one, more := OneAttr(m.attrs[0]), AttrText(m.attrs[1..]);
    assert OpenTag(m) == "<HDDM " + (one + more + if m.children == [] then " />" else ">");
  }

  // The codons that a stream starts with, from its two header texts.
  method MatchHeaders(document: string, own: string, ghost w: Tag, ghost r: Tag) returns (genome: Codon)
    requires document == Print(w, 0) && own == Print(r, 0) && Header(w) && Header(r)
    ensures genome.Valid() && genome.gene == Genome(w, r) && fresh(genome.repr)
  {
    hide Print, Whole, Genes, OpenTag, NormalTree, NoSelfNesting, TagsMatch;
    HeaderIsWhole(w);
    HeaderIsWhole(r);
    RootsMatch(w, r);
    var sequence := Synthesize(document, 0, own, 0, w, r, 0);
    genome := Transcribe(Gene(0, "HDDM", sequence));
  }

  /** End to end: from the two header texts and the bytes of a record of the file's model,
      the reader's record is the projection of the file's record to the reader's model, and
      its host lists hold the elements in stream order, divided among the list members. */
  method ReadFirst(document: string, own: string, event: seq<byte>, ghost w: Tag, r: Tag, ghost e: Rec)
    returns (record: Rec, consumed: nat, host: HostLists.Host)
    requires document == Print(w, 0) && own == Print(r, 0) && Header(w) && Header(r)
    requires Compatible(w, r) && |event| < TWO31 && Conforms(w, e) && (e.vals != [] || w.children != [])
    requires At(event, 0, EncodeRecord(w, e))
    ensures record == Project(w, r, e) && consumed == |EncodeRecord(w, e)|
    ensures HostLists.Partitioned(host) && GeneFits(Genome(w, r), r) && HostLists.Deep(r, record)
    ensures HostLists.NoOwnAncestor(r) ==>
              forall name :: HostLists.Plist(host, name)
                             == HostLists.Named(HostLists.Visits(Genome(w, r), r, record, [], 0), name)
  {
    hide At, Print, Header, Compatible, EncodeRecord, Project, Genome, GeneFits, ParseElem, Columns, Conforms,
         HostLists.Play, HostLists.Partitioned, HostLists.Plist, HostLists.Named, HostLists.Visits, HostLists.Deep,
         HostLists.NoOwnAncestor, HostLists.Once, ElemRefills, ReadInt;
    var genome := MatchHeaders(document, own, w, r);
    var sbuf := new InBuffer(event);
    var istr := new IStream(sbuf, genome, Blank(r));
    SchemaEvolution(w, r, e, event, 0);
    HostLists.HostListsOfBytes(w, r, e, event, 0);
    istr.Extract(ElemTarget([], r));
    record, consumed := istr.root, sbuf.pos;
    ghost var refills := ElemRefills(Genome(w, r), r, event, ReadInt(event, 0).1, []);
    assert [] + refills == refills;
    host := HostLists.Play(HostLists.EMPTY, istr.refills);
  }
}
