/** scripts/prune_config_references.py: published config stays reference-closed after files are excluded; and
    the closure check of scripts/embed_config.py that the published tree then meets. */
module PruneReferences {
  import opened Common
  import opened PosixPath
  import PythonText

  type Name = string

  datatype Entry = Entry(metricsFile: Option<Reference>, specificationFile: Option<Reference>)

  /** What the two scripts look at in a document; an absent mapping reads as an empty one. */
  datatype Document = Document(
    extendsFile: Option<Reference>,
    scmiUuidMapping: map<string, Entry>,
    uuidMapping: map<string, Entry>)

  type Documents = map<Name, Document>

  /** The document `name` extends, if it names one that can be resolved. */
  function Base(docs: Documents, name: Name): Option<Name> {
    if name in docs && docs[name].extendsFile.Some? then Resolve(name, docs[name].extendsFile.value) else None
  }

  predicate ExtendsResolve(docs: Documents) {
    forall name :: name in docs ==> docs[name].extendsFile.Some? ==> Base(docs, name).Some?
  }

  // ----- the documents that go

  /** The `extends` chain from `name` meets an excluded name within `n` steps. */
  predicate Reaches(docs: Documents, excluded: set<Name>, name: Name, n: nat)
    decreases n
  {
    name in excluded ||
    (n > 0 && Base(docs, name).Some? && Reaches(docs, excluded, Base(docs, name).value, n - 1))
  }

  ghost predicate Inherits(docs: Documents, excluded: set<Name>, name: Name) {
    exists n: nat :: Reaches(docs, excluded, name, n)
  }

  /** Removing those documents is the least way to be closed: any set that holds the excluded names and, with
      a document, the documents that extend it, holds them all. */
  lemma {:induction false} LeastClosedSet(docs: Documents, excluded: set<Name>, s: set<Name>, name: Name, n: nat)
    requires excluded <= s
    requires forall m :: m in docs && Base(docs, m).Some? && Base(docs, m).value in s ==> m in s
    requires Reaches(docs, excluded, name, n)
    ensures name in s
    decreases n
  {
    if name !in excluded {
      LeastClosedSet(docs, excluded, s, Base(docs, name).value, n - 1);
    }
  }

  /** What the removal loop has established between its rounds. */
  ghost predicate Removing(docs: Documents, excluded: set<Name>, rest: Documents, gone: set<Name>) {
    && (forall name :: name in rest ==> name in docs && rest[name] == docs[name])
    && excluded <= gone && rest.Keys !! gone
    && (forall name :: name in docs ==> name in rest || name in gone)
    && (forall name :: name in gone ==> Inherits(docs, excluded, name))
  }

  lemma InheritsStep(docs: Documents, excluded: set<Name>, name: Name)
    requires Base(docs, name).Some? && Inherits(docs, excluded, Base(docs, name).value)
    ensures Inherits(docs, excluded, name)
  {
    var n: nat :| Reaches(docs, excluded, Base(docs, name).value, n);
    assert Reaches(docs, excluded, name, n + 1);
  }

  lemma {:induction false} NoneLeft(docs: Documents, excluded: set<Name>, rest: Documents, gone: set<Name>,
                                    name: Name, n: nat)
    requires Removing(docs, excluded, rest, gone)
    requires forall m :: m in rest && Base(rest, m).Some? ==> Base(rest, m).value !in gone
    requires Reaches(docs, excluded, name, n)
    ensures name !in rest
    decreases n
  {
    if name in rest {
      assert name !in excluded;
      var base := Base(docs, name).value;
      assert Base(rest, name) == Some(base);
      NoneLeft(docs, excluded, rest, gone, base, n - 1);
      BaseIsKnown(docs, excluded, base, n - 1);
    }
  }

  lemma BaseIsKnown(docs: Documents, excluded: set<Name>, name: Name, n: nat)
    requires Reaches(docs, excluded, name, n)
    ensures name in docs || name in excluded
  {
  }

  // ----- mappings

  datatype Fate = Keep | Remove | Raise

  function References(e: Entry): seq<Reference> {
    (if e.metricsFile.Some? then [e.metricsFile.value] else []) +
    (if e.specificationFile.Some? then [e.specificationFile.value] else [])
  }

  /** `any(resolve(...) in excluded ...)`: stops at the first excluded reference, raises at a bad one before it. */
  function AnyExcluded(owner: Name, rs: seq<Reference>, excluded: set<Name>): Option<bool> {
    if rs == [] then Some(false)
    else
      match Resolve(owner, rs[0])
      case None => None
      case Some(r) => if r in excluded then Some(true) else AnyExcluded(owner, rs[1..], excluded)
  }

  predicate Found(owner: Name, r: Reference, names: set<Name>) {
    Resolve(owner, r).Some? && Resolve(owner, r).value in names
  }

  function EntryFate(owner: Name, e: Entry, names: set<Name>, excluded: set<Name>): Fate {
    var hit := AnyExcluded(owner, References(e), excluded);
    if hit.None? then Raise
    else if hit.value then Remove
    else if forall i :: 0 <= i < |References(e)| ==> Found(owner, References(e)[i], names) then Keep
    else Raise
  }

  predicate MappingRaises(owner: Name, mapping: map<string, Entry>, names: set<Name>, excluded: set<Name>) {
    exists key :: key in mapping && EntryFate(owner, mapping[key], names, excluded) == Raise
  }

  function KeptEntries(owner: Name, mapping: map<string, Entry>, names: set<Name>, excluded: set<Name>)
    : map<string, Entry>
  {
    map key | key in mapping && EntryFate(owner, mapping[key], names, excluded) != Remove :: mapping[key]
  }

  // ----- the whole pruning

  /** The documents whose chain reaches no excluded name. */
  ghost function Survivors(docs: Documents, excluded: set<Name>): Documents {
    map name | name in docs && !Inherits(docs, excluded, name) :: docs[name]
  }

  ghost function Gone(docs: Documents, excluded: set<Name>): set<Name> {
    excluded + set name | name in docs && Inherits(docs, excluded, name)
  }

  predicate DocumentRaises(name: Name, doc: Document, names: set<Name>, gone: set<Name>) {
    || (doc.extendsFile.Some? && !Found(name, doc.extendsFile.value, names))
    || MappingRaises(name, doc.scmiUuidMapping, names, gone)
    || MappingRaises(name, doc.uuidMapping, names, gone)
  }

  function PrunedDocument(name: Name, doc: Document, names: set<Name>, gone: set<Name>): Document {
    doc.(scmiUuidMapping := KeptEntries(name, doc.scmiUuidMapping, names, gone),
         uuidMapping := KeptEntries(name, doc.uuidMapping, names, gone))
  }

  /** Names a release restores are not excluded. */
  function Effective(docs: Documents, excluded: set<Name>): set<Name> {
    excluded - docs.Keys
  }

  /** The result of `prune_references`; `None` when it raises. */
  ghost function Pruned(docs: Documents, excluded: set<Name>): Option<Documents> {
    var out := Effective(docs, excluded);
    var rest, gone := Survivors(docs, out), Gone(docs, out);
    if !ExtendsResolve(docs) || exists name :: name in rest && DocumentRaises(name, rest[name], rest.Keys, gone)
    then None
    else Some(map name | name in rest :: PrunedDocument(name, rest[name], rest.Keys, gone))
  }

  class Pruner {
    var documents: Documents
    var excluded: set<Name>

    /** A copy of the caller's documents, and the exclusions in force. */
    constructor (documents: Documents, excluded: set<Name>)
      ensures this.documents == documents && this.excluded == Effective(documents, excluded)
    {
      this.documents := documents;
      this.excluded := excluded - documents.Keys;
    }

    /** `None` stands for the exception: the names to remove, unless some reference is invalid. */
    method InheritingNames() returns (removed: Option<set<Name>>)
      ensures removed.Some? <==> ExtendsResolve(documents)
      ensures removed.Some? ==>
                removed.value == set name | name in documents && Base(documents, name).Some?
                                            && Base(documents, name).value in excluded
    {
      if exists name :: name in documents && documents[name].extendsFile.Some? && Base(documents, name).None? {
        return None;
      }
      return Some(set name | name in documents && Base(documents, name).Some?
                             && Base(documents, name).value in excluded);
    }

    method ExcludeInheritingDocuments() returns (ok: bool)
      requires documents.Keys !! excluded
      modifies this
      ensures ok <==> ExtendsResolve(old(documents))
      ensures ok ==> documents == Survivors(old(documents), old(excluded))
      ensures ok ==> excluded == Gone(old(documents), old(excluded))
      ensures !ok ==> documents == old(documents) && excluded == old(excluded)
    {
      ghost var docs, out := documents, excluded;
      StartRemoving(docs, out);
      while true
        invariant Removing(docs, out, documents, excluded)
        invariant ExtendsResolve(docs) ==> ExtendsResolve(documents)
        invariant ExtendsResolve(docs) || (documents == docs && excluded == out)
        decreases |documents|
      {
        var removed := InheritingNames();
        if removed.None? {
          return false;
        }
        if removed.value == {} {
          assert forall m :: m in documents && Base(documents, m).Some? && Base(documents, m).value in excluded ==>
                   m in removed.value;
          Finished(docs, out, documents, excluded);
          return true;
        }
        RemoveRound(docs, out, documents, excluded, removed.value);
        excluded := excluded + removed.value;
        documents := documents - removed.value;
      }
    }

    /** What the loop body does to one entry. */
    method FateOf(owner: Name, entry: Entry) returns (fate: Fate)
      ensures fate == EntryFate(owner, entry, documents.Keys, excluded)
    {
      var rs := References(entry);
      var hit := AnyExcluded(owner, rs, excluded);
      if hit.None? {
        return Raise;
      }
      if hit.value {
        return Remove;
      }
      for i := 0 to |rs|
        invariant forall j :: 0 <= j < i ==> Found(owner, rs[j], documents.Keys)
      {
        if !Found(owner, rs[i], documents.Keys) {
          return Raise;
        }
      }
      return Keep;
    }

    /** The entries that stay; `None` stands for the exception. */
    method PruneMapping(owner: Name, mapping: map<string, Entry>) returns (r: Option<map<string, Entry>>)
      ensures r.None? <==> MappingRaises(owner, mapping, documents.Keys, excluded)
      ensures r.Some? ==> r.value == KeptEntries(owner, mapping, documents.Keys, excluded)
    {
      var kept := mapping;
      var keys := mapping.Keys;
      while keys != {}
        invariant keys <= mapping.Keys
        invariant forall k :: k in mapping.Keys - keys ==>
                    EntryFate(owner, mapping[k], documents.Keys, excluded) != Raise
        invariant forall k :: k in kept <==>
                    k in mapping && (k in keys || EntryFate(owner, mapping[k], documents.Keys, excluded) == Keep)
        invariant forall k :: k in kept ==> kept[k] == mapping[k]
        decreases |keys|
      {
        var key :| key in keys;
        keys := keys - {key};
        var fate := FateOf(owner, mapping[key]);
        if fate == Raise {
          return None;
        }
        if fate == Remove {
          kept := kept - {key};
        }
      }
      return Some(kept);
    }

    /** One turn of the loop over the documents; not `ok` stands for the exception. */
    method PruneDocument(name: Name) returns (ok: bool)
      requires name in documents
      modifies this`documents
      ensures ok <==> !DocumentRaises(name, old(documents)[name], old(documents.Keys), excluded)
      ensures ok ==> documents == old(documents)[
                       name := PrunedDocument(name, old(documents)[name], old(documents.Keys), excluded)]
    {
      var doc := documents[name];
      if doc.extendsFile.Some? && !Found(name, doc.extendsFile.value, documents.Keys) {
        return false;
      }
      ghost var keys := documents.Keys;
      var scmi := PruneMapping(name, doc.scmiUuidMapping);
      if scmi.None? {
        return false;
      }
      documents := documents[name := doc.(scmiUuidMapping := scmi.value)];
      assert documents.Keys == keys;
      var uuid := PruneMapping(name, doc.uuidMapping);
      if uuid.None? {
        return false;
      }
      documents := documents[name := documents[name].(uuidMapping := uuid.value)];
      assert documents[name] == PrunedDocument(name, doc, keys, excluded);
      return true;
    }

    method PruneReferences() returns (r: Option<Documents>)
      requires documents.Keys !! excluded
      modifies this
      ensures r == Pruned(old(documents), old(excluded))
    {
      ghost var docs, out := documents, excluded;
      assert Effective(docs, out) == out;
      var ok := ExcludeInheritingDocuments();
      if !ok {
        return None;
      }
      ghost var rest := documents;
      var names := documents.Keys;
      while names != {}
        invariant names <= documents.Keys == rest.Keys && excluded == Gone(docs, out)
        invariant forall n :: n in names ==> documents[n] == rest[n]
        invariant forall n :: n in rest.Keys - names ==>
                    && !DocumentRaises(n, rest[n], rest.Keys, excluded)
                    && documents[n] == PrunedDocument(n, rest[n], rest.Keys, excluded)
        decreases |names|
      {
        var name :| name in names;
        names := names - {name};
        ok := PruneDocument(name);
        if !ok {
          return None;
        }
      }
      assert documents == map n | n in rest :: PrunedDocument(n, rest[n], rest.Keys, excluded);
      return Some(documents);
    }
  }

  lemma StartRemoving(docs: Documents, excluded: set<Name>)
    requires docs.Keys !! excluded
    ensures Removing(docs, excluded, docs, excluded)
  {
    assert forall name :: name in excluded ==> Reaches(docs, excluded, name, 0);
  }

  lemma RemoveRound(docs: Documents, excluded: set<Name>, rest: Documents, gone: set<Name>, removed: set<Name>)
    requires Removing(docs, excluded, rest, gone)
    requires removed == set name | name in rest && Base(rest, name).Some? && Base(rest, name).value in gone
    requires removed != {}
    ensures Removing(docs, excluded, rest - removed, gone + removed)
    ensures ExtendsResolve(rest) ==> ExtendsResolve(rest - removed)
    ensures |rest - removed| < |rest|
  {
    forall name | name in removed
      ensures Inherits(docs, excluded, name)
    {
      assert Base(docs, name) == Base(rest, name);
      InheritsStep(docs, excluded, name);
    }
    forall name | name in rest - removed
      ensures Base(rest - removed, name) == Base(rest, name)
    {
    }
    assert (rest - removed).Keys == rest.Keys - removed;
    var some :| some in removed;
    assert rest.Keys - removed <= rest.Keys - {some};
    SmallerSet(rest.Keys - removed, rest.Keys - {some});
  }

  lemma {:induction false} SmallerSet(a: set<Name>, b: set<Name>)
    requires a <= b
    ensures |a| <= |b|
  {
    if a != {} {
      var x :| x in a;
      SmallerSet(a - {x}, b - {x});
    }
  }

  lemma Finished(docs: Documents, excluded: set<Name>, rest: Documents, gone: set<Name>)
    requires Removing(docs, excluded, rest, gone)
    requires forall m :: m in rest && Base(rest, m).Some? ==> Base(rest, m).value !in gone
    ensures rest == Survivors(docs, excluded) && gone == Gone(docs, excluded)
  {
    forall name | name in rest
      ensures !Inherits(docs, excluded, name)
    {
      if n: nat :| Reaches(docs, excluded, name, n) {
        NoneLeft(docs, excluded, rest, gone, name, n);
      }
    }
    forall name | name in gone
      ensures name in docs || name in excluded
    {
      var n: nat :| Reaches(docs, excluded, name, n);
      BaseIsKnown(docs, excluded, name, n);
    }
  }

  // ----- what the result promises

  predicate AllFound(owner: Name, mapping: map<string, Entry>, names: set<Name>) {
    forall key, i :: key in mapping && 0 <= i < |References(mapping[key])| ==>
                       Found(owner, References(mapping[key])[i], names)
  }

  predicate ReferenceClosed(docs: Documents) {
    forall name :: name in docs ==>
                     && (docs[name].extendsFile.Some? ==> Found(name, docs[name].extendsFile.value, docs.Keys))
                     && AllFound(name, docs[name].scmiUuidMapping, docs.Keys)
                     && AllFound(name, docs[name].uuidMapping, docs.Keys)
  }

  lemma KeptAllFound(owner: Name, mapping: map<string, Entry>, names: set<Name>, excluded: set<Name>)
    requires !MappingRaises(owner, mapping, names, excluded)
    ensures AllFound(owner, KeptEntries(owner, mapping, names, excluded), names)
  {
    var kept := KeptEntries(owner, mapping, names, excluded);
    forall key | key in kept
      ensures EntryFate(owner, mapping[key], names, excluded) == Keep
    {
    }
  }

  /** A pruning that does not raise returns a reference-closed tree. */
  lemma PrunedIsClosed(docs: Documents, excluded: set<Name>)
    requires Pruned(docs, excluded).Some?
    ensures ReferenceClosed(Pruned(docs, excluded).value)
  {
    var out := Effective(docs, excluded);
    var rest, gone := Survivors(docs, out), Gone(docs, out);
    var result := Pruned(docs, excluded).value;
    assert result.Keys == rest.Keys;
    forall name | name in result
      ensures AllFound(name, result[name].scmiUuidMapping, result.Keys)
      ensures AllFound(name, result[name].uuidMapping, result.Keys)
      ensures result[name].extendsFile.Some? ==> Found(name, result[name].extendsFile.value, result.Keys)
    {
      assert !DocumentRaises(name, rest[name], rest.Keys, gone);
      KeptAllFound(name, rest[name].scmiUuidMapping, rest.Keys, gone);
      KeptAllFound(name, rest[name].uuidMapping, rest.Keys, gone);
    }
  }

  lemma {:induction false} NothingExcluded(owner: Name, rs: seq<Reference>, names: set<Name>, excluded: set<Name>)
    requires names !! excluded && forall i :: 0 <= i < |rs| ==> Found(owner, rs[i], names)
    ensures AnyExcluded(owner, rs, excluded) == Some(false)
  {
    if rs != [] {
      assert Found(owner, rs[0], names);
      NothingExcluded(owner, rs[1..], names, excluded);
    }
  }

  lemma FoundEntriesStay(owner: Name, mapping: map<string, Entry>, names: set<Name>, excluded: set<Name>)
    requires names !! excluded && AllFound(owner, mapping, names)
    ensures !MappingRaises(owner, mapping, names, excluded)
    ensures KeptEntries(owner, mapping, names, excluded) == mapping
  {
    forall key | key in mapping
      ensures EntryFate(owner, mapping[key], names, excluded) == Keep
    {
      NothingExcluded(owner, References(mapping[key]), names, excluded);
    }
  }

  lemma {:induction false} ClosedNeverReaches(docs: Documents, excluded: set<Name>, name: Name, n: nat)
    requires ReferenceClosed(docs) && docs.Keys !! excluded && name in docs
    ensures !Reaches(docs, excluded, name, n)
    decreases n
  {
    if n > 0 && Base(docs, name).Some? {
      ClosedNeverReaches(docs, excluded, Base(docs, name).value, n - 1);
    }
  }

  /** A closed tree is left as it is, whatever is excluded. */
  lemma ClosedIsFixed(docs: Documents, excluded: set<Name>)
    requires ReferenceClosed(docs)
    ensures Pruned(docs, excluded) == Some(docs)
  {
    var out := Effective(docs, excluded);
    forall name | name in docs
      ensures !Inherits(docs, out, name)
    {
      forall n: nat { ClosedNeverReaches(docs, out, name, n); }
    }
    var rest, gone := Survivors(docs, out), Gone(docs, out);
    assert rest == docs && gone == out;
    forall name | name in docs
      ensures !DocumentRaises(name, docs[name], docs.Keys, out)
      ensures PrunedDocument(name, docs[name], docs.Keys, out) == docs[name]
    {
      FoundEntriesStay(name, docs[name].scmiUuidMapping, docs.Keys, out);
      FoundEntriesStay(name, docs[name].uuidMapping, docs.Keys, out);
    }
    assert ExtendsResolve(docs);
    assert Pruned(docs, excluded).Some?;
    assert Pruned(docs, excluded).value == docs;
  }

  /** Pruning the result again changes nothing, with the same exclusions or with others. */
  lemma PruningIsIdempotent(docs: Documents, excluded: set<Name>, again: set<Name>)
    requires Pruned(docs, excluded).Some?
    ensures Pruned(Pruned(docs, excluded).value, again) == Pruned(docs, excluded)
  {
    PrunedIsClosed(docs, excluded);
    ClosedIsFixed(Pruned(docs, excluded).value, again);
  }

  lemma {:induction false} ExcludedReference(owner: Name, rs: seq<Reference>, excluded: set<Name>)
    requires AnyExcluded(owner, rs, excluded).Some?
    ensures AnyExcluded(owner, rs, excluded).value <==>
            exists i :: 0 <= i < |rs| && Found(owner, rs[i], excluded)
  {
    if rs != [] && Resolve(owner, rs[0]).value in excluded {
      assert Found(owner, rs[0], excluded);
    } else if rs != [] {
      ExcludedReference(owner, rs[1..], excluded);
      assert forall i :: 0 <= i < |rs| - 1 ==> rs[1..][i] == rs[i + 1];
    }
  }

  ghost predicate RefersTo(owner: Name, e: Entry, names: set<Name>) {
    exists i :: 0 <= i < |References(e)| && Found(owner, References(e)[i], names)
  }

  /** What goes is exactly the documents whose chain reaches an excluded name, and from the mappings of the
      others exactly the entries that refer to one of those documents or to an excluded name. */
  lemma RemovedExactly(docs: Documents, excluded: set<Name>, name: Name, key: string)
    requires Pruned(docs, excluded).Some? && name in docs
    ensures var result, out := Pruned(docs, excluded).value, Effective(docs, excluded);
            && (name in result <==> !Inherits(docs, out, name))
            && (name in result ==>
                  && result[name].extendsFile == docs[name].extendsFile
                  && (key in result[name].scmiUuidMapping <==>
                        key in docs[name].scmiUuidMapping
                        && !RefersTo(name, docs[name].scmiUuidMapping[key], Gone(docs, out)))
                  && (key in result[name].uuidMapping <==>
                        key in docs[name].uuidMapping
                        && !RefersTo(name, docs[name].uuidMapping[key], Gone(docs, out))))
  {
    var out := Effective(docs, excluded);
    var rest, gone := Survivors(docs, out), Gone(docs, out);
    if name in rest {
      assert !DocumentRaises(name, rest[name], rest.Keys, gone);
      EntryRemovedExactly(name, docs[name].scmiUuidMapping, rest.Keys, gone, key);
      EntryRemovedExactly(name, docs[name].uuidMapping, rest.Keys, gone, key);
    }
  }

  lemma EntryRemovedExactly(owner: Name, mapping: map<string, Entry>, names: set<Name>, gone: set<Name>, key: string)
    requires !MappingRaises(owner, mapping, names, gone)
    ensures key in KeptEntries(owner, mapping, names, gone) <==>
            key in mapping && !RefersTo(owner, mapping[key], gone)
  {
    if key in mapping {
      assert EntryFate(owner, mapping[key], names, gone) != Raise;
      ExcludedReference(owner, References(mapping[key]), gone);
    }
  }

  /** The reference resolves to a document that goes. */
  predicate IsGone(owner: Name, r: Option<Reference>, gone: set<Name>) {
    r.Some? && Resolve(owner, r.value).Some? && Resolve(owner, r.value).value in gone
  }

  /** The reference is there and resolves to no document that stays. */
  predicate IsMissing(owner: Name, r: Option<Reference>, names: set<Name>) {
    r.Some? && (Resolve(owner, r.value).None? || Resolve(owner, r.value).value !in names)
  }

  /** An entry raises over a reference that is missing, unless one that goes is met first. */
  predicate Breaks(owner: Name, e: Entry, names: set<Name>, gone: set<Name>) {
    && !IsGone(owner, e.metricsFile, gone)
    && if e.metricsFile.Some? && Resolve(owner, e.metricsFile.value).None? then true
       else !IsGone(owner, e.specificationFile, gone)
            && (IsMissing(owner, e.metricsFile, names) || IsMissing(owner, e.specificationFile, names))
  }

  lemma EntryRaisesExactly(owner: Name, e: Entry, names: set<Name>, gone: set<Name>)
    ensures EntryFate(owner, e, names, gone) == Raise <==> Breaks(owner, e, names, gone)
  {
    var m, s := e.metricsFile, e.specificationFile;
    if m.Some? && s.Some? {
      BothRaise(owner, e, names, gone);
    } else if m.Some? || s.Some? {
      OneRaises(owner, e, if m.Some? then m.value else s.value, names, gone);
    }
  }

  lemma BothRaise(owner: Name, e: Entry, names: set<Name>, gone: set<Name>)
    requires e.metricsFile.Some? && e.specificationFile.Some?
    ensures EntryFate(owner, e, names, gone) == Raise <==> Breaks(owner, e, names, gone)
  {
    var m, s := e.metricsFile.value, e.specificationFile.value;
    assert References(e) == [m, s];
    TwoReferences(owner, m, s, gone);
  }

  lemma OneRaises(owner: Name, e: Entry, r: Reference, names: set<Name>, gone: set<Name>)
    requires (e.metricsFile, e.specificationFile) == (Some(r), None)
             || (e.metricsFile, e.specificationFile) == (None, Some(r))
    ensures EntryFate(owner, e, names, gone) == Raise <==> Breaks(owner, e, names, gone)
  {
    assert References(e) == [r];
    OneReference(owner, r, gone);
  }

  lemma TwoReferences(owner: Name, m: Reference, s: Reference, gone: set<Name>)
    ensures AnyExcluded(owner, [m, s], gone)
            == if Resolve(owner, m).None? then None
               else if Resolve(owner, m).value in gone then Some(true)
               else if Resolve(owner, s).None? then None
               else Some(Resolve(owner, s).value in gone)
  {
    assert [m, s][1..] == [s];
    OneReference(owner, s, gone);
  }

  lemma OneReference(owner: Name, r: Reference, gone: set<Name>)
    ensures AnyExcluded(owner, [r], gone)
            == if Resolve(owner, r).None? then None else Some(Resolve(owner, r).value in gone)
  {
    assert [r][1..] == [];
  }

  /** A document that stays makes pruning raise: its base is missing, or an entry of its mappings raises. */
  ghost predicate BreaksIn(docs: Documents, out: set<Name>, name: Name) {
    var names, gone := Survivors(docs, out).Keys, Gone(docs, out);
    && name in docs && !Inherits(docs, out, name)
    && (|| IsMissing(name, docs[name].extendsFile, names)
        || (exists key :: key in docs[name].scmiUuidMapping
                          && Breaks(name, docs[name].scmiUuidMapping[key], names, gone))
        || (exists key :: key in docs[name].uuidMapping && Breaks(name, docs[name].uuidMapping[key], names, gone)))
  }

  /** Exactly when pruning raises: over an `extends` that does not resolve, in any document, or over a document
      that stays. */
  lemma RaisesExactly(docs: Documents, excluded: set<Name>)
    ensures Pruned(docs, excluded).None? <==>
            || (exists name :: name in docs && docs[name].extendsFile.Some?
                               && Resolve(name, docs[name].extendsFile.value).None?)
            || (exists name :: BreaksIn(docs, Effective(docs, excluded), name))
  {
    var out := Effective(docs, excluded);
    var rest, gone := Survivors(docs, out), Gone(docs, out);
    forall name | name in docs
      ensures name in rest && DocumentRaises(name, rest[name], rest.Keys, gone) <==> BreaksIn(docs, out, name)
    {
      MappingRaisesExactly(name, docs[name].scmiUuidMapping, rest.Keys, gone);
      MappingRaisesExactly(name, docs[name].uuidMapping, rest.Keys, gone);
    }
    assert ExtendsResolve(docs) <==> !exists name :: name in docs && docs[name].extendsFile.Some?
                                                     && Resolve(name, docs[name].extendsFile.value).None?;
  }

  lemma MappingRaisesExactly(owner: Name, mapping: map<string, Entry>, names: set<Name>, gone: set<Name>)
    ensures MappingRaises(owner, mapping, names, gone) <==>
            exists key :: key in mapping && Breaks(owner, mapping[key], names, gone)
  {
    forall key | key in mapping
      ensures EntryFate(owner, mapping[key], names, gone) == Raise <==> Breaks(owner, mapping[key], names, gone)
    {
      EntryRaisesExactly(owner, mapping[key], names, gone);
    }
  }

  /** Without effective exclusions nothing is removed: a missing reference raises instead. */
  lemma NoExclusionsNoChange(docs: Documents, excluded: set<Name>)
    requires excluded <= docs.Keys
    ensures Pruned(docs, excluded) == if ReferenceClosed(docs) then Some(docs) else None
  {
    if ReferenceClosed(docs) {
      ClosedIsFixed(docs, excluded);
    } else if Pruned(docs, excluded).Some? {
      PrunedUnchanged(docs, excluded);
      PrunedIsClosed(docs, excluded);
    }
  }

  lemma PrunedUnchanged(docs: Documents, excluded: set<Name>)
    requires excluded <= docs.Keys && Pruned(docs, excluded).Some?
    ensures Pruned(docs, excluded).value == docs
  {
    var out := Effective(docs, excluded);
    assert out == {};
    forall name | name in docs
      ensures !Inherits(docs, out, name)
    {
      forall n: nat { NothingReached(docs, name, n); }
    }
    var rest, gone := Survivors(docs, out), Gone(docs, out);
    assert rest == docs && gone == {};
    forall name | name in docs
      ensures PrunedDocument(name, docs[name], docs.Keys, gone) == docs[name]
    {
      assert !DocumentRaises(name, rest[name], rest.Keys, gone);
      NothingRemoved(name, docs[name].scmiUuidMapping, docs.Keys);
      NothingRemoved(name, docs[name].uuidMapping, docs.Keys);
    }
  }

  lemma {:induction false} NothingReached(docs: Documents, name: Name, n: nat)
    ensures !Reaches(docs, {}, name, n)
    decreases n
  {
    if n > 0 && Base(docs, name).Some? {
      NothingReached(docs, Base(docs, name).value, n - 1);
    }
  }

  lemma NothingRemoved(owner: Name, mapping: map<string, Entry>, names: set<Name>)
    requires !MappingRaises(owner, mapping, names, {})
    ensures KeptEntries(owner, mapping, names, {}) == mapping
  {
    forall key | key in mapping
      ensures key in KeptEntries(owner, mapping, names, {})
    {
      EntryRemovedExactly(owner, mapping, names, {}, key);
    }
  }

  // ----- the embedder's closure check

  /** The references `generate` collects from a document; `None` when an entry lacks the key it expects. */
  function EmbeddedReferences(entries: map<string, Entry>, key: string, scmi: bool): Option<Reference>
    requires key in entries
  {
    if scmi then entries[key].metricsFile else entries[key].specificationFile
  }

  predicate EmbedFound(owner: Name, r: Option<Reference>, names: set<Name>) {
    r.Some? && r.value.Text? && !PythonText.StartsWith(r.value.s, "/") && Target(owner, r.value.s) in names
  }

  predicate EmbedAcceptsDocument(docs: Documents, name: Name)
    requires name in docs
  {
    && (docs[name].extendsFile.Some? ==> EmbedFound(name, docs[name].extendsFile, docs.Keys))
    && (forall key :: key in docs[name].scmiUuidMapping ==>
          EmbedFound(name, EmbeddedReferences(docs[name].scmiUuidMapping, key, true), docs.Keys))
    && (forall key :: key in docs[name].uuidMapping ==>
          EmbedFound(name, EmbeddedReferences(docs[name].uuidMapping, key, false), docs.Keys))
  }

  predicate EmbedAccepts(docs: Documents) {
    forall name :: name in docs ==> EmbedAcceptsDocument(docs, name)
  }

  predicate HasExpectedKeys(doc: Document) {
    && (forall key :: key in doc.scmiUuidMapping ==> doc.scmiUuidMapping[key].metricsFile.Some?)
    && (forall key :: key in doc.uuidMapping ==> doc.uuidMapping[key].specificationFile.Some?)
  }

  /** No document lies outside the tree. */
  ghost predicate WithinTree(names: set<Name>) {
    forall name :: name in names ==> name != ".." && !PythonText.StartsWith(name, "../")
  }

  /** The embedder and the pruner find the same references, though the embedder does not check where they lead. */
  lemma FoundAlike(owner: Name, r: Reference, names: set<Name>)
    requires WithinTree(names)
    ensures EmbedFound(owner, Some(r), names) <==> Found(owner, r, names)
  {
  }

  /** The references the embedder looks at: bases, metrics files and specification files. */
  ghost predicate Embeds(docs: Documents, name: Name, r: Reference) {
    && name in docs
    && (|| docs[name].extendsFile == Some(r)
        || (exists key :: key in docs[name].scmiUuidMapping && docs[name].scmiUuidMapping[key].metricsFile == Some(r))
        || (exists key :: key in docs[name].uuidMapping && docs[name].uuidMapping[key].specificationFile == Some(r)))
  }

  lemma MappingAccepted(owner: Name, mapping: map<string, Entry>, names: set<Name>, scmi: bool)
    requires WithinTree(names)
    ensures (forall key :: key in mapping ==> EmbedFound(owner, EmbeddedReferences(mapping, key, scmi), names)) <==>
            (forall key :: key in mapping ==> var r := EmbeddedReferences(mapping, key, scmi);
                                              r.Some? && Found(owner, r.value, names))
  {
    forall r: Reference ensures EmbedFound(owner, Some(r), names) <==> Found(owner, r, names) {
      FoundAlike(owner, r, names);
    }
  }

  /** What the embedder asks of one document, told by the pruner's resolution. */
  ghost predicate AllEmbedded(docs: Documents, name: Name)
    requires name in docs
  {
    HasExpectedKeys(docs[name]) && forall r :: Embeds(docs, name, r) ==> Found(name, r, docs.Keys)
  }

  lemma AcceptedEmbeds(docs: Documents, name: Name)
    requires WithinTree(docs.Keys) && name in docs && EmbedAcceptsDocument(docs, name)
    ensures AllEmbedded(docs, name)
  {
    var doc := docs[name];
    MappingAccepted(name, doc.scmiUuidMapping, docs.Keys, true);
    MappingAccepted(name, doc.uuidMapping, docs.Keys, false);
    forall r | Embeds(docs, name, r) ensures Found(name, r, docs.Keys) {
      FoundAlike(name, r, docs.Keys);
    }
  }

  lemma EmbeddedIsAccepted(docs: Documents, name: Name)
    requires WithinTree(docs.Keys) && name in docs && AllEmbedded(docs, name)
    ensures EmbedAcceptsDocument(docs, name)
  {
    var doc := docs[name];
    if doc.extendsFile.Some? {
      assert Embeds(docs, name, doc.extendsFile.value);
      FoundAlike(name, doc.extendsFile.value, docs.Keys);
    }
    forall key | key in doc.scmiUuidMapping
      ensures EmbedFound(name, EmbeddedReferences(doc.scmiUuidMapping, key, true), docs.Keys)
    {
      assert Embeds(docs, name, doc.scmiUuidMapping[key].metricsFile.value);
      FoundAlike(name, doc.scmiUuidMapping[key].metricsFile.value, docs.Keys);
    }
    forall key | key in doc.uuidMapping
      ensures EmbedFound(name, EmbeddedReferences(doc.uuidMapping, key, false), docs.Keys)
    {
      assert Embeds(docs, name, doc.uuidMapping[key].specificationFile.value);
      FoundAlike(name, doc.uuidMapping[key].specificationFile.value, docs.Keys);
    }
  }

  /** The embedder accepts a tree exactly when every mapping entry has its expected key and every such reference
      resolves to a document. */
  lemma EmbedAcceptsExactly(docs: Documents)
    requires WithinTree(docs.Keys)
    ensures EmbedAccepts(docs) <==>
            && (forall name :: name in docs ==> HasExpectedKeys(docs[name]))
            && (forall name, r :: Embeds(docs, name, r) ==>
                                    Resolve(name, r).Some? && Resolve(name, r).value in docs)
  {
    forall name | name in docs
      ensures EmbedAcceptsDocument(docs, name) <==> AllEmbedded(docs, name)
    {
      if EmbedAcceptsDocument(docs, name) {
        AcceptedEmbeds(docs, name);
      } else if AllEmbedded(docs, name) {
        EmbeddedIsAccepted(docs, name);
      }
    }
  }

  /** A pruned tree passes the embedder's check exactly when every mapping entry carries its expected key. */
  lemma PrunedPassesEmbedder(docs: Documents, excluded: set<Name>)
    requires Pruned(docs, excluded).Some?
    ensures var result := Pruned(docs, excluded).value;
            EmbedAccepts(result) <==> forall name :: name in result ==> HasExpectedKeys(result[name])
  {
    var result := Pruned(docs, excluded).value;
    PrunedIsClosed(docs, excluded);
    forall name | name in result && HasExpectedKeys(result[name])
      ensures forall key :: key in result[name].scmiUuidMapping ==>
                EmbedFound(name, EmbeddedReferences(result[name].scmiUuidMapping, key, true), result.Keys)
      ensures forall key :: key in result[name].uuidMapping ==>
                EmbedFound(name, EmbeddedReferences(result[name].uuidMapping, key, false), result.Keys)
    {
      FoundIsEmbedFound(name, result[name].scmiUuidMapping, result.Keys, true);
      FoundIsEmbedFound(name, result[name].uuidMapping, result.Keys, false);
    }
  }

  lemma FoundIsEmbedFound(owner: Name, mapping: map<string, Entry>, names: set<Name>, scmi: bool)
    requires AllFound(owner, mapping, names)
    ensures forall key :: key in mapping && EmbeddedReferences(mapping, key, scmi).Some? ==>
              EmbedFound(owner, EmbeddedReferences(mapping, key, scmi), names)
  {
    forall key | key in mapping && EmbeddedReferences(mapping, key, scmi).Some?
      ensures EmbedFound(owner, EmbeddedReferences(mapping, key, scmi), names)
    {
      var r, rs := EmbeddedReferences(mapping, key, scmi).value, References(mapping[key]);
      assert rs[if scmi then 0 else |rs| - 1] == r;
      assert Found(owner, r, names);
    }
  }
}
