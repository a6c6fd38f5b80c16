/** scripts/upload-collections.js: after clearing the remote cache, every collection definition
    file is sent to the remote when its name is not listed there yet, its fields missing from the
    remote listing are created one by one, and its relations are kept aside; once every file is
    done, the relations whose (field, related collection) pair is not listed remotely are created. */
module CollectionUpload {
  import opened Records
  import opened Remote

  /** The requests the script issues. */
  datatype CollectionCall =
    | ClearCache                                        // POST /utils/cache/clear
    | ListCollections                                   // GET /collections
    | ListFields(collection: string)                    // GET /fields/{collection}
    | ListRelations(collection: string)                 // GET /relations/{collection}
    | CreateCollection(collectionBody: Collection)      // POST /collections
    | CreateField(collection: string, fieldBody: Field) // POST /fields/{collection}
    | CreateRelation(relationBody: Relation)            // POST /relations

  /** What the remote answers to the listing requests of one run: the collection names, the
      field names for the k-th definition file, and the relations for the j-th entry kept aside.
      An index past the end stands for a failed request. */
  datatype RemoteState = RemoteState(
    collections: Listing<string>,
    fields: seq<Listing<string>>,
    relations: seq<Listing<Relation>>)

  function FieldListing(remote: RemoteState, k: nat): Listing<string>
  {
    if k < |remote.fields| then remote.fields[k] else FetchFailed
  }

  function RelationListing(remote: RemoteState, j: nat): Listing<Relation>
  {
    if j < |remote.relations| then remote.relations[j] else FetchFailed
  }

  /** A directory entry of the collections directory; `content` is None when it cannot be read
      or parsed, which throws out of uploadCollections. */
  datatype CollectionFile = CollectionFile(name: string, content: Option<Collection>)

  /** An entry of relationsToCreate. */
  datatype PendingRelations = PendingRelations(collectionName: string, relations: seq<Relation>)

  // ----- stripping the remote-assigned field id -----

  /** `field.meta && field.meta.id`: only an object meta has an `id` property. */
  predicate HasTruthyMetaId(f: Field)
  {
    f.meta.Some? && f.meta.value.JObj? && "id" in f.meta.value.entries && Truthy(f.meta.value.entries["id"])
  }

  /** `delete field.meta.id` under that guard. */
  function StripMetaId(f: Field): (r: Field)
    ensures r.name == f.name && r.attrs == f.attrs
    ensures !HasTruthyMetaId(r)
    ensures !HasTruthyMetaId(f) ==> r == f
    ensures HasTruthyMetaId(f) ==>
      r.meta.Some? && r.meta.value.JObj? &&
      r.meta.value.entries.Keys == f.meta.value.entries.Keys - {"id"} &&
      forall key :: key in r.meta.value.entries ==> r.meta.value.entries[key] == f.meta.value.entries[key]
  {
    if HasTruthyMetaId(f) then f.(meta := Some(JObj(f.meta.value.entries - {"id"}))) else f
  }

  /** Stripping twice is stripping once: a field already stripped is sent unchanged. */
  lemma StripIdempotent(f: Field)
    ensures StripMetaId(StripMetaId(f)) == StripMetaId(f)
  {
  }

  /** Every field of a list, stripped. */
  function StripAll(fields: seq<Field>): (r: seq<Field>)
    ensures |r| == |fields|
    ensures forall i :: 0 <= i < |r| ==> r[i] == StripMetaId(fields[i])
  {
    if fields == [] then [] else [StripMetaId(fields[0])] + StripAll(fields[1..])
  }

  /** The collection as createCollection leaves it: its fields stripped, all else as it was. */
  function Stripped(c: Collection): (r: Collection)
    ensures r.name == c.name && r.relations == c.relations && r.attrs == c.attrs
    ensures r.fields.Some? <==> c.fields.Some?
    ensures r.fields.Some? ==>
      |r.fields.value| == |c.fields.value| &&
      forall i :: 0 <= i < |r.fields.value| ==> r.fields.value[i] == StripMetaId(c.fields.value[i])
  {
    match c.fields
    case None => c
    case Some(fields) => c.(fields := Some(StripAll(fields)))
  }

  // ----- deciding what is missing -----

  /** `fields.filter((field) => !existingFields.includes(field.field))`. */
  function MissingFields(fields: seq<Field>, existing: seq<string>): seq<Field>
  {
    if fields == [] then []
    else (if fields[0].name in existing then [] else [fields[0]]) + MissingFields(fields[1..], existing)
  }

  /** The relation identity used for the existence check: the field and the related collection. */
  predicate SameKey(a: Relation, b: Relation)
  {
    a.field == b.field && a.relatedCollection == b.relatedCollection
  }

  /** Some listed relation has the key of `r`. */
  predicate AnySameKey(existing: seq<Relation>, r: Relation)
  {
    existing != [] && (SameKey(existing[0], r) || AnySameKey(existing[1..], r))
  }

  // ----- the specification of a run -----

  /** createFieldsForCollection: one POST per field, each stripped; a refusal is only logged. */
  function FieldPosts(collectionName: string, fields: seq<Field>): seq<CollectionCall>
  {
    if fields == [] then []
    else [CreateField(collectionName, StripMetaId(fields[0]))] + FieldPosts(collectionName, fields[1..])
  }

  /** The POSTs of createRelationsForCollection: each relation whose key is not listed. */
  function RelationPosts(relations: seq<Relation>, existing: seq<Relation>): seq<CollectionCall>
  {
    if relations == [] then []
    else
      (if AnySameKey(existing, relations[0]) then [] else [CreateRelation(relations[0])]) +
      RelationPosts(relations[1..], existing)
  }

  /** createRelationsForCollection: the listing, then the POSTs. */
  function RelationCalls(entry: PendingRelations, listing: Listing<Relation>): seq<CollectionCall>
  {
    [ListRelations(entry.collectionName)] + RelationPosts(entry.relations, Inventory(listing))
  }

  /** The body of the loop of uploadCollections for one parsed definition. */
  function FileCalls(c: Collection, existing: seq<string>, listing: Listing<string>): seq<CollectionCall>
  {
    (if c.name in existing then [] else [CreateCollection(Stripped(c))]) + FieldCalls(c, listing)
  }

  /** The field part of that body: the listing and the posts, when the definition has fields. */
  function FieldCalls(c: Collection, listing: Listing<string>): seq<CollectionCall>
  {
    match c.fields
    case None => []
    case Some(fields) => [ListFields(c.name)] + FieldPosts(c.name, MissingFields(fields, Inventory(listing)))
  }

  /** What the loop over the definition files has done: the requests, the relations kept aside,
      and whether every file could be parsed (false: uploadCollections threw). */
  datatype Progress = Progress(calls: seq<CollectionCall>, pending: seq<PendingRelations>, completed: bool)

  /** The loop of uploadCollections over the files, the k-th file using the k-th field listing. */
  function FilesPhase(files: seq<CollectionFile>, existing: seq<string>, remote: RemoteState): Progress
    decreases |files|
  {
    if files == [] then Progress([], [], true)
    else
      var before := FilesPhase(files[..|files| - 1], existing, remote);
      var c := files[|files| - 1].content;
      if !before.completed then before
      else if c.None? then Progress(before.calls, before.pending, false)
      else
        Progress(
          before.calls + FileCalls(c.value, existing, FieldListing(remote, |files| - 1)),
          before.pending + if c.value.relations.Some? then [PendingRelations(c.value.name, c.value.relations.value)] else [],
          true)
  }

  /** A definition file that parses and carries a relations array. */
  predicate HasRelations(file: CollectionFile)
  {
    file.content.Some? && file.content.value.relations.Some?
  }

  /** The entry uploadCollections pushes onto relationsToCreate for such a file. */
  function Entry(file: CollectionFile): PendingRelations
    requires HasRelations(file)
  {
    PendingRelations(file.content.value.name, file.content.value.relations.value)
  }

  /** relationsToCreate as the files define it: one entry for each definition with relations,
      in the order readdir lists the files. */
  function Kept(files: seq<CollectionFile>): seq<PendingRelations>
    decreases |files|
  {
    if files == [] then []
    else
      var last := files[|files| - 1];
      Kept(files[..|files| - 1]) + if HasRelations(last) then [Entry(last)] else []
  }

  /** The loop of uploadCollections over relationsToCreate, the j-th entry using the j-th listing. */
  function RelationsPhase(pending: seq<PendingRelations>, remote: RemoteState): seq<CollectionCall>
    decreases |pending|
  {
    if pending == [] then []
    else RelationsPhase(pending[..|pending| - 1], remote) + RelationCalls(pending[|pending| - 1], RelationListing(remote, |pending| - 1))
  }

  /** uploadCollections: the collection listing, the files, and the relations once every file is done. */
  function UploadLog(files: seq<CollectionFile>, remote: RemoteState): seq<CollectionCall>
  {
    var p := FilesPhase(files, Inventory(remote.collections), remote);
    [ListCollections] + p.calls + if p.completed then RelationsPhase(p.pending, remote) else []
  }

  /** main: the cache reset, then uploadCollections. No outcome of any request appears here:
      every refusal is caught and logged, so the requests never depend on the answers to POSTs. */
  function RunLog(files: seq<CollectionFile>, remote: RemoteState): seq<CollectionCall>
  {
    [ClearCache] + UploadLog(files, remote)
  }

  // ----- what a single step posts -----

  /** The requests of the definition loop. */
  predicate FileCall(c: CollectionCall)
  {
    c.CreateCollection? || c.ListFields? || c.CreateField?
  }

  /** The requests of the relation loop. */
  predicate RelationCall(c: CollectionCall)
  {
    c.ListRelations? || c.CreateRelation?
  }

  /** The requests that create something remotely. */
  predicate Post(c: CollectionCall)
  {
    c.CreateCollection? || c.CreateField? || c.CreateRelation?
  }

  /** The includes-based filter keeps, in order, exactly the fields whose name is not listed;
      a failed field listing therefore selects every field. */
  lemma {:induction false} MissingFieldsSelects(fields: seq<Field>, existing: seq<string>)
    ensures forall f :: f in MissingFields(fields, existing) <==> f in fields && f.name !in existing
    ensures MissingFields(fields, []) == fields
    ensures (forall f :: f in fields ==> f.name in existing) ==> MissingFields(fields, existing) == []
    decreases |fields|
  {
    if fields != [] {
      MissingFieldsSelects(fields[1..], existing);
      assert fields == [fields[0]] + fields[1..];
    }
  }

  /** The filter keeps the listed order: one more field adds itself at the end when its name
      is not listed, and nothing otherwise. */
  lemma {:induction false} MissingFieldsAppend(fields: seq<Field>, f: Field, existing: seq<string>)
    ensures MissingFields(fields + [f], existing) == MissingFields(fields, existing) + (if f.name in existing then [] else [f])
    decreases |fields|
  {
    if fields == [] {
      assert [f][1..] == [];
    } else {
      assert (fields + [f])[0] == fields[0] && (fields + [f])[1..] == fields[1..] + [f];
      MissingFieldsAppend(fields[1..], f, existing);
    }
  }

  /** One POST per field, in order, carrying the field without its remote-assigned id. */
  lemma {:induction false} FieldPostsEach(collectionName: string, fields: seq<Field>)
    ensures |FieldPosts(collectionName, fields)| == |fields|
    ensures forall i :: 0 <= i < |fields| ==> FieldPosts(collectionName, fields)[i] == CreateField(collectionName, StripMetaId(fields[i]))
    decreases |fields|
  {
    if fields != [] {
      FieldPostsEach(collectionName, fields[1..]);
    }
  }

  /** createCollection strips the ids in place before the fields are filtered and posted; the
      fields posted afterwards are the same as if it had not, since the filter looks at names
      only and stripping is idempotent. */
  lemma {:induction false} StripBeforeFilterPostsTheSame(collectionName: string, fields: seq<Field>, existing: seq<string>)
    ensures FieldPosts(collectionName, MissingFields(StripAll(fields), existing)) == FieldPosts(collectionName, MissingFields(fields, existing))
    decreases |fields|
  {
    if fields != [] {
      var stripped := StripAll(fields);
      StripBeforeFilterPostsTheSame(collectionName, fields[1..], existing);
      StripIdempotent(fields[0]);
      assert stripped[0] == StripMetaId(fields[0]) && stripped[1..] == StripAll(fields[1..]);
      if fields[0].name !in existing {
        var kept := MissingFields(stripped, existing);
        assert kept == [stripped[0]] + MissingFields(stripped[1..], existing);
        assert kept[0] == stripped[0] && kept[1..] == MissingFields(stripped[1..], existing);
        var original := MissingFields(fields, existing);
        assert original == [fields[0]] + MissingFields(fields[1..], existing);
        assert original[0] == fields[0] && original[1..] == MissingFields(fields[1..], existing);
      } else {
        assert MissingFields(stripped, existing) == [] + MissingFields(stripped[1..], existing) == MissingFields(stripped[1..], existing);
        assert MissingFields(fields, existing) == [] + MissingFields(fields[1..], existing) == MissingFields(fields[1..], existing);
      }
    }
  }

  /** Of the fields of a definition, exactly those whose name is not listed are posted, each
      to the definition's collection and without its id. */
  lemma FieldPostsSelect(collectionName: string, fields: seq<Field>, existing: seq<string>)
    ensures forall f :: f in fields ==>
      (CreateField(collectionName, StripMetaId(f)) in FieldPosts(collectionName, MissingFields(fields, existing)) <==> f.name !in existing)
    ensures forall x :: x in FieldPosts(collectionName, MissingFields(fields, existing)) ==>
      x.CreateField? && x.collection == collectionName && x.fieldBody.name !in existing
  {
    forall f | f in fields
      ensures CreateField(collectionName, StripMetaId(f)) in FieldPosts(collectionName, MissingFields(fields, existing)) <==> f.name !in existing
    {
      FieldPostedOnlyIfMissing(collectionName, fields, existing, f);
    }
    forall x | x in FieldPosts(collectionName, MissingFields(fields, existing))
      ensures x.CreateField? && x.collection == collectionName && x.fieldBody.name !in existing
    {
      FieldPostIsMissing(collectionName, fields, existing, x);
    }
  }

  lemma FieldPostedOnlyIfMissing(collectionName: string, fields: seq<Field>, existing: seq<string>, f: Field)
    requires f in fields
    ensures CreateField(collectionName, StripMetaId(f)) in FieldPosts(collectionName, MissingFields(fields, existing)) <==> f.name !in existing
  {
    var missing := MissingFields(fields, existing);
    var posts := FieldPosts(collectionName, missing);
    MissingFieldsSelects(fields, existing);
    FieldPostsEach(collectionName, missing);
    if CreateField(collectionName, StripMetaId(f)) in posts {
      var i :| 0 <= i < |posts| && posts[i] == CreateField(collectionName, StripMetaId(f));
      assert StripMetaId(missing[i]).name == StripMetaId(f).name;
      assert missing[i] in missing;
    }
    if f.name !in existing {
      var i :| 0 <= i < |missing| && missing[i] == f;
      assert posts[i] == CreateField(collectionName, StripMetaId(f));
    }
  }

  lemma FieldPostIsMissing(collectionName: string, fields: seq<Field>, existing: seq<string>, x: CollectionCall)
    requires x in FieldPosts(collectionName, MissingFields(fields, existing))
    ensures x.CreateField? && x.collection == collectionName && x.fieldBody.name !in existing
    ensures exists f :: f in fields && f.name !in existing && x == CreateField(collectionName, StripMetaId(f))
  {
    var missing := MissingFields(fields, existing);
    var posts := FieldPosts(collectionName, missing);
    MissingFieldsSelects(fields, existing);
    FieldPostsEach(collectionName, missing);
    var i :| 0 <= i < |posts| && posts[i] == x;
    assert missing[i] in missing;
    assert x == CreateField(collectionName, StripMetaId(missing[i]));
  }

  /** The requests for one definition: the collection is created exactly when its name is not
      listed, its fields are listed exactly when it has some, and a field is posted exactly
      when its name is not in that listing. */
  lemma FileCallsSelect(c: Collection, existing: seq<string>, listing: Listing<string>)
    ensures CreateCollection(Stripped(c)) in FileCalls(c, existing, listing) <==> c.name !in existing
    ensures forall x :: x in FileCalls(c, existing, listing) && x.CreateCollection? ==> x == CreateCollection(Stripped(c)) && c.name !in existing
    ensures ListFields(c.name) in FileCalls(c, existing, listing) <==> c.fields.Some?
    ensures c.fields.Some? ==> forall f :: f in c.fields.value ==>
      (CreateField(c.name, StripMetaId(f)) in FileCalls(c, existing, listing) <==> f.name !in Inventory(listing))
    ensures forall x :: x in FileCalls(c, existing, listing) && x.CreateField? ==>
      c.fields.Some? && x.collection == c.name && x.fieldBody.name !in Inventory(listing)
    ensures forall x :: x in FileCalls(c, existing, listing) ==> FileCall(x)
  {
    if c.fields.Some? {
      FieldPostsSelect(c.name, c.fields.value, Inventory(listing));
    }
  }

  /** Relation identity: a relation is posted exactly when no listed relation has its field and
      related collection, whatever its other attributes; the listing always comes first. */
  lemma {:induction false} RelationPostsSelect(relations: seq<Relation>, existing: seq<Relation>)
    ensures forall r :: CreateRelation(r) in RelationPosts(relations, existing) <==> r in relations && !AnySameKey(existing, r)
    ensures forall x :: x in RelationPosts(relations, existing) ==> x.CreateRelation?
    decreases |relations|
  {
    if relations != [] {
      RelationPostsSelect(relations[1..], existing);
      assert relations == [relations[0]] + relations[1..];
    }
  }

  /** A local author -> users relation counts as existing when the remote lists any
      author -> users relation, whatever the other attributes of either. */
  lemma AuthorRelationAlreadyExists(local: Relation, listed: Relation)
    requires local.field == "author" && local.relatedCollection == Some("users")
    requires listed.field == "author" && listed.relatedCollection == Some("users")
    ensures RelationCalls(PendingRelations("articles", [local]), Fetched([listed])) == [ListRelations("articles")]
  {
    assert AnySameKey([listed], local);
    assert RelationPosts([local], [listed]) == [] + RelationPosts([], [listed]);
  }

  /** AnySameKey is the existence of a listed relation with the same key. */
  lemma {:induction false} AnySameKeyMeans(existing: seq<Relation>, r: Relation)
    ensures AnySameKey(existing, r) <==> exists i :: 0 <= i < |existing| && SameKey(existing[i], r)
    decreases |existing|
  {
    if existing != [] {
      AnySameKeyMeans(existing[1..], r);
      if exists i :: 0 <= i < |existing| && SameKey(existing[i], r) {
        var i :| 0 <= i < |existing| && SameKey(existing[i], r);
        if i > 0 {
          assert existing[1..][i - 1] == existing[i];
        }
      }
      if exists i :: 0 <= i < |existing[1..]| && SameKey(existing[1..][i], r) {
        var i :| 0 <= i < |existing[1..]| && SameKey(existing[1..][i], r);
        assert existing[i + 1] == existing[1..][i];
      }
    }
  }

  /** The relation loop issues only relation requests. */
  lemma {:induction false} RelationsPhaseCalls(pending: seq<PendingRelations>, remote: RemoteState)
    ensures forall x :: x in RelationsPhase(pending, remote) ==> RelationCall(x)
    decreases |pending|
  {
    if pending != [] {
      var last := pending[|pending| - 1];
      RelationsPhaseCalls(pending[..|pending| - 1], remote);
      RelationPostsSelect(last.relations, Inventory(RelationListing(remote, |pending| - 1)));
    }
  }

  /** The definition loop issues only definition requests. */
  lemma {:induction false} FilesPhaseCalls(files: seq<CollectionFile>, existing: seq<string>, remote: RemoteState)
    ensures forall x :: x in FilesPhase(files, existing, remote).calls ==> FileCall(x)
    decreases |files|
  {
    if files != [] {
      FilesPhaseCalls(files[..|files| - 1], existing, remote);
      var c := files[|files| - 1].content;
      if c.Some? {
        FileCallsSelect(c.value, existing, FieldListing(remote, |files| - 1));
      }
    }
  }

  // ----- properties of a run -----

  /** uploadCollections lists the collections first, then issues only definition and relation
      requests, and once it has issued a relation request it issues nothing else. */
  lemma UploadLogShape(files: seq<CollectionFile>, remote: RemoteState)
    ensures var log := UploadLog(files, remote);
      var p := FilesPhase(files, Inventory(remote.collections), remote);
      |log| >= 1 && log[0] == ListCollections &&
      (forall i :: 1 <= i < 1 + |p.calls| ==> FileCall(log[i])) &&
      (forall j :: 1 + |p.calls| <= j < |log| ==> RelationCall(log[j]))
  {
    var p := FilesPhase(files, Inventory(remote.collections), remote);
    var tail := if p.completed then RelationsPhase(p.pending, remote) else [];
    FilesPhaseCalls(files, Inventory(remote.collections), remote);
    RelationsPhaseCalls(p.pending, remote);
    var log := UploadLog(files, remote);
    assert log == [ListCollections] + p.calls + tail;
    forall i | 1 <= i < 1 + |p.calls|
      ensures FileCall(log[i])
    {
      assert log[i] == p.calls[i - 1];
      assert p.calls[i - 1] in p.calls;
    }
    forall j | 1 + |p.calls| <= j < |log|
      ensures RelationCall(log[j])
    {
      assert log[j] == tail[j - 1 - |p.calls|];
      assert tail[j - 1 - |p.calls|] in tail;
    }
  }

  /** The cache is cleared first and the collections are listed once, right after. */
  lemma CacheClearedFirst(files: seq<CollectionFile>, remote: RemoteState)
    ensures |RunLog(files, remote)| >= 2
    ensures RunLog(files, remote)[0] == ClearCache && RunLog(files, remote)[1] == ListCollections
    ensures forall i :: 2 <= i < |RunLog(files, remote)| ==> FileCall(RunLog(files, remote)[i]) || RelationCall(RunLog(files, remote)[i])
  {
    var upload := UploadLog(files, remote);
    UploadLogShape(files, remote);
    var log := RunLog(files, remote);
    forall i | 2 <= i < |log|
      ensures FileCall(log[i]) || RelationCall(log[i])
    {
      assert log[i] == upload[i - 1];
    }
  }

  /** Relations are created after all collections and fields have been processed: once a
      relation request has been issued, every later request is one too. */
  lemma RelationsLast(files: seq<CollectionFile>, remote: RemoteState)
    ensures forall i, j :: 0 <= i < j < |UploadLog(files, remote)| && RelationCall(UploadLog(files, remote)[i]) ==>
      RelationCall(UploadLog(files, remote)[j])
  {
    UploadLogShape(files, remote);
  }

  /** Once a definition fails to parse, later files change nothing. */
  lemma {:induction false} FilesPhaseHalts(files: seq<CollectionFile>, existing: seq<string>, remote: RemoteState, n: nat)
    requires n <= |files|
    requires !FilesPhase(files[..n], existing, remote).completed
    ensures FilesPhase(files, existing, remote) == FilesPhase(files[..n], existing, remote)
    decreases |files|
  {
    if n < |files| {
      var init := files[..|files| - 1];
      assert init[..n] == files[..n];
      FilesPhaseHalts(init, existing, remote, n);
    } else {
      assert files[..n] == files;
    }
  }

  /** A definition that cannot be read or parsed ends the run: nothing after it is requested,
      and no relation at all is created, not even those of earlier files. */
  lemma ParseFailureStopsRun(files: seq<CollectionFile>, remote: RemoteState, k: nat)
    requires k < |files| && files[k].content.None?
    ensures UploadLog(files, remote) == [ListCollections] + FilesPhase(files[..k], Inventory(remote.collections), remote).calls
    ensures forall x :: x in UploadLog(files, remote) ==> !RelationCall(x)
  {
    var existing := Inventory(remote.collections);
    var upto := files[..k + 1];
    assert upto[..k] == files[..k];
    var before := FilesPhase(files[..k], existing, remote);
    if before.completed {
      assert !FilesPhase(upto, existing, remote).completed;
      FilesPhaseHalts(files, existing, remote, k + 1);
    } else {
      FilesPhaseHalts(files, existing, remote, k);
    }
    FilesPhaseCalls(files[..k], existing, remote);
  }

  /** The requests of a prefix of the files are a prefix of the requests of all of them. */
  lemma {:induction false} FilesPhasePrefix(files: seq<CollectionFile>, existing: seq<string>, remote: RemoteState, n: nat)
    requires n <= |files|
    ensures FilesPhase(files[..n], existing, remote).calls <= FilesPhase(files, existing, remote).calls
    decreases |files|
  {
    if n < |files| {
      var init := files[..|files| - 1];
      assert init[..n] == files[..n];
      FilesPhasePrefix(init, existing, remote, n);
      var a := FilesPhase(files[..n], existing, remote).calls;
      var b := FilesPhase(init, existing, remote).calls;
      var whole := FilesPhase(files, existing, remote).calls;
      assert b <= whole;
      assert a <= b;
      assert |a| <= |whole| && forall i :: 0 <= i < |a| ==> a[i] == b[i] == whole[i];
    } else {
      assert files[..n] == files;
    }
  }

  /** Parsed files complete the definition loop. */
  lemma {:induction false} AllParsedCompletes(files: seq<CollectionFile>, existing: seq<string>, remote: RemoteState)
    requires forall i :: 0 <= i < |files| ==> files[i].content.Some?
    ensures FilesPhase(files, existing, remote).completed
    decreases |files|
  {
    if files != [] {
      AllParsedCompletes(files[..|files| - 1], existing, remote);
    }
  }

  /** Every request of the k-th definition is issued when it and all files before it parse. */
  lemma FileReached(files: seq<CollectionFile>, existing: seq<string>, remote: RemoteState, k: nat)
    requires k < |files|
    requires forall i :: 0 <= i <= k ==> files[i].content.Some?
    ensures forall x :: x in FileCalls(files[k].content.value, existing, FieldListing(remote, k)) ==>
      x in FilesPhase(files, existing, remote).calls
  {
    var upto := files[..k + 1];
    var here := FileCalls(files[k].content.value, existing, FieldListing(remote, k));
    assert upto[..k] == files[..k] && upto[k] == files[k];
    AllParsedCompletes(files[..k], existing, remote);
    var before := FilesPhase(files[..k], existing, remote).calls;
    assert FilesPhase(upto, existing, remote).calls == before + here;
    FilesPhasePrefix(files, existing, remote, k + 1);
    PrefixMembers(before + here, FilesPhase(files, existing, remote).calls);
  }

  /** A collection the remote does not list is created, whenever its file and every file before
      it parse; in particular a failed collection listing creates every such collection. */
  lemma UnlistedCollectionCreated(files: seq<CollectionFile>, remote: RemoteState, k: nat)
    requires k < |files|
    requires forall i :: 0 <= i <= k ==> files[i].content.Some?
    requires files[k].content.value.name !in Inventory(remote.collections)
    ensures CreateCollection(Stripped(files[k].content.value)) in UploadLog(files, remote)
  {
    var existing := Inventory(remote.collections);
    FileReached(files, existing, remote, k);
    FileCallsSelect(files[k].content.value, existing, FieldListing(remote, k));
  }

  /** A field the remote does not list for its collection is created, without its id. */
  lemma UnlistedFieldCreated(files: seq<CollectionFile>, remote: RemoteState, k: nat, f: Field)
    requires k < |files|
    requires forall i :: 0 <= i <= k ==> files[i].content.Some?
    requires files[k].content.value.fields.Some? && f in files[k].content.value.fields.value
    requires f.name !in Inventory(FieldListing(remote, k))
    ensures CreateField(files[k].content.value.name, StripMetaId(f)) in UploadLog(files, remote)
  {
    var existing := Inventory(remote.collections);
    FileReached(files, existing, remote, k);
    FileCallsSelect(files[k].content.value, existing, FieldListing(remote, k));
  }

  /** A collection the remote lists is never created again. */
  lemma {:induction false} ListedCollectionNotRecreated(files: seq<CollectionFile>, existing: seq<string>, remote: RemoteState)
    ensures forall x :: x in FilesPhase(files, existing, remote).calls && x.CreateCollection? ==> x.collectionBody.name !in existing
    decreases |files|
  {
    if files != [] {
      ListedCollectionNotRecreated(files[..|files| - 1], existing, remote);
      var c := files[|files| - 1].content;
      if c.Some? {
        FileCallsSelect(c.value, existing, FieldListing(remote, |files| - 1));
      }
    }
  }

  /** The relation requests of a prefix of relationsToCreate are a prefix of all of them. */
  lemma {:induction false} RelationsPhasePrefix(pending: seq<PendingRelations>, remote: RemoteState, n: nat)
    requires n <= |pending|
    ensures RelationsPhase(pending[..n], remote) <= RelationsPhase(pending, remote)
    decreases |pending|
  {
    if n < |pending| {
      var init := pending[..|pending| - 1];
      assert init[..n] == pending[..n];
      RelationsPhasePrefix(init, remote, n);
      var a := RelationsPhase(pending[..n], remote);
      var b := RelationsPhase(init, remote);
      var whole := RelationsPhase(pending, remote);
      assert |a| <= |whole| && forall i :: 0 <= i < |a| ==> a[i] == b[i] == whole[i];
    } else {
      assert pending[..n] == pending;
    }
  }

  /** A completed definition loop has kept exactly the files' relations, in file order. */
  lemma {:induction false} PendingIsKept(files: seq<CollectionFile>, existing: seq<string>, remote: RemoteState)
    ensures FilesPhase(files, existing, remote).completed ==> FilesPhase(files, existing, remote).pending == Kept(files)
    decreases |files|
  {
    if files != [] {
      PendingIsKept(files[..|files| - 1], existing, remote);
    }
  }

  /** The entries of a prefix of the files come first in relationsToCreate. */
  lemma {:induction false} KeptPrefix(files: seq<CollectionFile>, n: nat)
    requires n <= |files|
    ensures Kept(files[..n]) <= Kept(files)
    decreases |files|
  {
    if n < |files| {
      var init := files[..|files| - 1];
      assert init[..n] == files[..n];
      KeptPrefix(init, n);
      var a := Kept(files[..n]);
      var b := Kept(init);
      PrefixExtends([], a, b);
      assert b <= Kept(files);
      assert |a| <= |Kept(files)| && forall i :: 0 <= i < |a| ==> a[i] == b[i] == Kept(files)[i];
    } else {
      assert files[..n] == files;
    }
  }

  /** The k-th file's entry sits after those of the files before it. */
  lemma KeptEntry(files: seq<CollectionFile>, k: nat)
    requires k < |files| && HasRelations(files[k])
    ensures var j := |Kept(files[..k])|;
      j < |Kept(files)| && Kept(files)[j] == Entry(files[k])
  {
    var upto := files[..k + 1];
    assert upto[..k] == files[..k] && upto[k] == files[k];
    assert Kept(upto) == Kept(files[..k]) + [Entry(files[k])];
    KeptPrefix(files, k + 1);
  }

  /** Every entry of relationsToCreate is the entry of a file with relations, placed after
      the entries of the files before it. */
  lemma {:induction false} KeptOrigin(files: seq<CollectionFile>, j: nat)
    requires j < |Kept(files)|
    ensures exists k :: 0 <= k < |files| && HasRelations(files[k]) && |Kept(files[..k])| == j && Kept(files)[j] == Entry(files[k])
    decreases |files|
  {
    var n := |files| - 1;
    var init := files[..n];
    if j < |Kept(init)| {
      KeptOrigin(init, j);
      var k :| 0 <= k < |init| && HasRelations(init[k]) && |Kept(init[..k])| == j && Kept(init)[j] == Entry(init[k]);
      assert init[..k] == files[..k] && init[k] == files[k];
      assert Kept(files)[j] == Kept(init)[j];
    } else {
      assert HasRelations(files[n]) && Kept(files) == Kept(init) + [Entry(files[n])];
    }
  }

  /** A file read earlier has its entry earlier in relationsToCreate. */
  lemma KeptInFileOrder(files: seq<CollectionFile>, k1: nat, k2: nat)
    requires k1 < k2 <= |files| && HasRelations(files[k1])
    ensures |Kept(files[..k1])| < |Kept(files[..k2])|
  {
    var prefix := files[..k2];
    assert prefix[..k1] == files[..k1] && prefix[k1] == files[k1];
    KeptEntry(prefix, k1);
  }

  /** The relation loop creates a relation only for an entry whose listing lacks its key. */
  lemma {:induction false} RelationsPhaseOrigin(pending: seq<PendingRelations>, remote: RemoteState, r: Relation)
    requires CreateRelation(r) in RelationsPhase(pending, remote)
    ensures exists j :: 0 <= j < |pending| && r in pending[j].relations && !AnySameKey(Inventory(RelationListing(remote, j)), r)
    decreases |pending|
  {
    var n := |pending| - 1;
    var init := pending[..n];
    RelationPostsSelect(pending[n].relations, Inventory(RelationListing(remote, n)));
    if CreateRelation(r) in RelationsPhase(init, remote) {
      RelationsPhaseOrigin(init, remote, r);
      var j :| 0 <= j < |init| && r in init[j].relations && !AnySameKey(Inventory(RelationListing(remote, j)), r);
      assert pending[j] == init[j];
    } else {
      assert CreateRelation(r) in RelationPosts(pending[n].relations, Inventory(RelationListing(remote, n)));
    }
  }

  /** The relation listing of the j-th entry is issued after all requests of the entries before it. */
  lemma RelationsPhaseAt(pending: seq<PendingRelations>, remote: RemoteState, j: nat)
    requires j < |pending|
    ensures var at := |RelationsPhase(pending[..j], remote)|;
      at < |RelationsPhase(pending, remote)| && RelationsPhase(pending, remote)[at] == ListRelations(pending[j].collectionName)
  {
    var upto := pending[..j + 1];
    assert upto[..j] == pending[..j] && upto[j] == pending[j];
    var before := RelationsPhase(pending[..j], remote);
    assert RelationsPhase(upto, remote) == before + RelationCalls(pending[j], RelationListing(remote, j));
    assert RelationsPhase(upto, remote)[|before|] == ListRelations(pending[j].collectionName);
    RelationsPhasePrefix(pending, remote, j + 1);
  }

  /** Each entry adds at least its listing, so the requests of a longer prefix are more. */
  lemma RelationsPhaseGrows(pending: seq<PendingRelations>, remote: RemoteState, j1: nat, j2: nat)
    requires j1 < j2 <= |pending|
    ensures |RelationsPhase(pending[..j1], remote)| < |RelationsPhase(pending[..j2], remote)|
  {
    var prefix := pending[..j2];
    assert prefix[..j1] == pending[..j1];
    RelationsPhaseAt(prefix, remote, j1);
  }

  /** The relation loop creates each relation of an entry whose listing lacks its key. */
  lemma PendingRelationCreated(pending: seq<PendingRelations>, remote: RemoteState, j: nat, r: Relation)
    requires j < |pending| && r in pending[j].relations
    requires !AnySameKey(Inventory(RelationListing(remote, j)), r)
    ensures CreateRelation(r) in RelationsPhase(pending, remote)
  {
    var upto := pending[..j + 1];
    assert upto[..j] == pending[..j] && upto[j] == pending[j];
    RelationPostsSelect(pending[j].relations, Inventory(RelationListing(remote, j)));
    assert CreateRelation(r) in RelationsPhase(upto, remote);
    RelationsPhasePrefix(pending, remote, j + 1);
    PrefixMembers(RelationsPhase(upto, remote), RelationsPhase(pending, remote));
  }

  /** Once every definition parses, each relation of a definition whose key the listing
      fetched for that file's entry lacks is created. */
  lemma UnlistedRelationCreated(files: seq<CollectionFile>, remote: RemoteState, k: nat, r: Relation)
    requires forall i :: 0 <= i < |files| ==> files[i].content.Some?
    requires k < |files| && HasRelations(files[k]) && r in files[k].content.value.relations.value
    requires !AnySameKey(Inventory(RelationListing(remote, |Kept(files[..k])|)), r)
    ensures CreateRelation(r) in UploadLog(files, remote)
  {
    var existing := Inventory(remote.collections);
    var p := FilesPhase(files, existing, remote);
    AllParsedCompletes(files, existing, remote);
    PendingIsKept(files, existing, remote);
    KeptEntry(files, k);
    PendingRelationCreated(Kept(files), remote, |Kept(files[..k])|, r);
    assert UploadLog(files, remote) == ([ListCollections] + p.calls) + RelationsPhase(Kept(files), remote);
  }

  /** Only-if, over a whole run: every relation created is a relation of some parsed definition
      whose key the listing fetched for that file's entry lacks. */
  lemma RelationCreatedOnlyIfUnlisted(files: seq<CollectionFile>, remote: RemoteState, r: Relation)
    requires CreateRelation(r) in UploadLog(files, remote)
    ensures exists k :: (0 <= k < |files| && HasRelations(files[k]) && r in files[k].content.value.relations.value &&
      !AnySameKey(Inventory(RelationListing(remote, |Kept(files[..k])|)), r))
  {
    var existing := Inventory(remote.collections);
    var p := FilesPhase(files, existing, remote);
    FilesPhaseCalls(files, existing, remote);
    PendingIsKept(files, existing, remote);
    assert UploadLog(files, remote) == [ListCollections] + p.calls + if p.completed then RelationsPhase(p.pending, remote) else [];
    assert CreateRelation(r) !in p.calls;
    assert p.completed && CreateRelation(r) in RelationsPhase(Kept(files), remote);
    RelationsPhaseOrigin(Kept(files), remote, r);
    var j :| 0 <= j < |Kept(files)| && r in Kept(files)[j].relations && !AnySameKey(Inventory(RelationListing(remote, j)), r);
    KeptOrigin(files, j);
  }

  /** The definition loop's requests each come from one parsed definition, with that file's
      field listing. */
  lemma {:induction false} FilesPhaseOrigin(files: seq<CollectionFile>, existing: seq<string>, remote: RemoteState, x: CollectionCall)
    requires x in FilesPhase(files, existing, remote).calls
    ensures exists k :: 0 <= k < |files| && files[k].content.Some? && x in FileCalls(files[k].content.value, existing, FieldListing(remote, k))
    decreases |files|
  {
    var n := |files| - 1;
    var init := files[..n];
    var before := FilesPhase(init, existing, remote);
    if x in before.calls {
      FilesPhaseOrigin(init, existing, remote, x);
      var k :| 0 <= k < |init| && init[k].content.Some? && x in FileCalls(init[k].content.value, existing, FieldListing(remote, k));
      assert init[k] == files[k];
    } else {
      assert files[n].content.Some? && x in FileCalls(files[n].content.value, existing, FieldListing(remote, n));
    }
  }

  /** Only-if, over a whole run: every field created is, without its id, a field of some parsed
      definition of that collection whose name the field listing fetched for it lacks. */
  lemma FieldCreatedOnlyIfUnlisted(files: seq<CollectionFile>, remote: RemoteState, x: CollectionCall)
    requires x in UploadLog(files, remote) && x.CreateField?
    ensures exists k :: (0 <= k < |files| && files[k].content.Some? && FieldOf(files[k].content.value, Inventory(FieldListing(remote, k)), x))
  {
    var existing := Inventory(remote.collections);
    var p := FilesPhase(files, existing, remote);
    RelationsPhaseCalls(p.pending, remote);
    var tail := if p.completed then RelationsPhase(p.pending, remote) else [];
    assert UploadLog(files, remote) == [ListCollections] + p.calls + tail;
    assert x !in tail;
    assert x in p.calls;
    FilesPhaseOrigin(files, existing, remote, x);
    var k :| 0 <= k < |files| && files[k].content.Some? && x in FileCalls(files[k].content.value, existing, FieldListing(remote, k));
    FileFieldOrigin(files[k].content.value, existing, FieldListing(remote, k), x);
  }

  /** `x` posts, without its id, a field of `c` whose name is not among `listed`. */
  predicate FieldOf(c: Collection, listed: seq<string>, x: CollectionCall)
  {
    c.fields.Some? && exists f :: f in c.fields.value && f.name !in listed && x == CreateField(c.name, StripMetaId(f))
  }

  /** A field post among one definition's requests is one of its unlisted fields, stripped. */
  lemma FileFieldOrigin(c: Collection, existing: seq<string>, listing: Listing<string>, x: CollectionCall)
    requires x in FileCalls(c, existing, listing) && x.CreateField?
    ensures FieldOf(c, Inventory(listing), x)
  {
    assert x in FieldCalls(c, listing);
    var listed := Inventory(listing);
    assert c.fields.Some? && x in FieldPosts(c.name, MissingFields(c.fields.value, listed));
    FieldPostIsMissing(c.name, c.fields.value, listed, x);
  }

  /** The relation loop lists the relations of its entries in order. */
  lemma RelationsPhaseOrder(pending: seq<PendingRelations>, remote: RemoteState, j1: nat, j2: nat)
    requires j1 < j2 < |pending|
    ensures exists i1, i2 :: (0 <= i1 < i2 < |RelationsPhase(pending, remote)| &&
      RelationsPhase(pending, remote)[i1] == ListRelations(pending[j1].collectionName) &&
      RelationsPhase(pending, remote)[i2] == ListRelations(pending[j2].collectionName))
  {
    RelationsPhaseAt(pending, remote, j1);
    RelationsPhaseAt(pending, remote, j2);
    RelationsPhaseGrows(pending, remote, j1, j2);
    var i1 := |RelationsPhase(pending[..j1], remote)|;
    var i2 := |RelationsPhase(pending[..j2], remote)|;
    assert i1 < i2;
  }

  /** Relations are created for the definitions in the order the files are read: the relation
      listing of an earlier file is issued before that of a later one. */
  lemma RelationsInFileOrder(files: seq<CollectionFile>, remote: RemoteState, k1: nat, k2: nat)
    requires forall i :: 0 <= i < |files| ==> files[i].content.Some?
    requires k1 < k2 < |files| && HasRelations(files[k1]) && HasRelations(files[k2])
    ensures exists i1, i2 :: (0 <= i1 < i2 < |UploadLog(files, remote)| &&
      UploadLog(files, remote)[i1] == ListRelations(files[k1].content.value.name) &&
      UploadLog(files, remote)[i2] == ListRelations(files[k2].content.value.name))
  {
    var existing := Inventory(remote.collections);
    var p := FilesPhase(files, existing, remote);
    AllParsedCompletes(files, existing, remote);
    PendingIsKept(files, existing, remote);
    var pending := Kept(files);
    KeptEntry(files, k1);
    KeptEntry(files, k2);
    KeptInFileOrder(files, k1, k2);
    var j1, j2 := |Kept(files[..k1])|, |Kept(files[..k2])|;
    RelationsPhaseOrder(pending, remote, j1, j2);
    assert pending[j1].collectionName == files[k1].content.value.name;
    assert pending[j2].collectionName == files[k2].content.value.name;
    var phase := RelationsPhase(pending, remote);
    var head := [ListCollections] + p.calls;
    assert UploadLog(files, remote) == head + phase;
    OrderedInSuffix(UploadLog(files, remote), head, phase,
      ListRelations(files[k1].content.value.name), ListRelations(files[k2].content.value.name));
  }

  /** Everything a definition asks for is already listed. */
  predicate AlreadyListed(c: Collection, collections: seq<string>, fields: seq<string>)
  {
    c.name in collections && (c.fields.Some? ==> forall f :: f in c.fields.value ==> f.name in fields)
  }

  /** The definition loop posts nothing when the remote already lists everything. */
  lemma {:induction false} FilesPhasePostsNothing(files: seq<CollectionFile>, existing: seq<string>, remote: RemoteState)
    requires forall k :: 0 <= k < |files| && files[k].content.Some? ==>
      AlreadyListed(files[k].content.value, existing, Inventory(FieldListing(remote, k)))
    ensures forall x :: x in FilesPhase(files, existing, remote).calls ==> !Post(x)
    decreases |files|
  {
    if files != [] {
      var n := |files| - 1;
      FilesPhasePostsNothing(files[..n], existing, remote);
      var c := files[n].content;
      if c.Some? && c.value.fields.Some? {
        MissingFieldsSelects(c.value.fields.value, Inventory(FieldListing(remote, n)));
      }
    }
  }

  /** The relation loop posts nothing when every kept relation's key is listed. */
  lemma {:induction false} RelationsPhasePostsNothing(pending: seq<PendingRelations>, remote: RemoteState)
    requires forall j :: 0 <= j < |pending| ==>
      forall r :: r in pending[j].relations ==> AnySameKey(Inventory(RelationListing(remote, j)), r)
    ensures forall x :: x in RelationsPhase(pending, remote) ==> !Post(x)
    decreases |pending|
  {
    if pending != [] {
      var n := |pending| - 1;
      RelationsPhasePostsNothing(pending[..n], remote);
      RelationPostsSelect(pending[n].relations, Inventory(RelationListing(remote, n)));
    }
  }

  /** Re-running the upload against a remote that already has every collection, field and
      relation of the definitions creates nothing: only the cache reset and listings are sent. */
  lemma SecondRunPostsNothing(files: seq<CollectionFile>, remote: RemoteState)
    requires forall k :: 0 <= k < |files| && files[k].content.Some? ==>
      AlreadyListed(files[k].content.value, Inventory(remote.collections), Inventory(FieldListing(remote, k)))
    requires forall k :: 0 <= k < |files| && HasRelations(files[k]) ==>
      forall r :: r in files[k].content.value.relations.value ==> AnySameKey(Inventory(RelationListing(remote, |Kept(files[..k])|)), r)
    ensures forall x :: x in RunLog(files, remote) ==> !Post(x)
  {
    var existing := Inventory(remote.collections);
    var p := FilesPhase(files, existing, remote);
    FilesPhasePostsNothing(files, existing, remote);
    PendingIsKept(files, existing, remote);
    if p.completed {
      forall j | 0 <= j < |Kept(files)|
        ensures forall r :: r in Kept(files)[j].relations ==> AnySameKey(Inventory(RelationListing(remote, j)), r)
      {
        KeptOrigin(files, j);
      }
      RelationsPhasePostsNothing(Kept(files), remote);
    }
  }

  // ----- a worked example -----

  const Title := Field("title", None, map[])
  const Summary := Field("summary", Some(JObj(map["id" := JNum(7), "note" := JStr("short")])), map[])
  const Articles := Collection("articles", Some([Title, Summary]), None, map[])

  /** The remote already has the articles collection and its title field: the run posts only
      the summary field, without the id it carried in the definition file. */
  lemma ArticlesScenario()
    ensures RunLog([CollectionFile("articles.json", Some(Articles))], RemoteState(Fetched(["articles"]), [Fetched(["title"])], [])) ==
      [ClearCache, ListCollections, ListFields("articles"), CreateField("articles", Field("summary", Some(JObj(map["note" := JStr("short")])), map[]))]
  {
    var files := [CollectionFile("articles.json", Some(Articles))];
    var remote := RemoteState(Fetched(["articles"]), [Fetched(["title"])], []);
    var calls := FileCalls(Articles, ["articles"], Fetched(["title"]));
    ArticlesRequests();
    assert files[..0] == [];
    assert FilesPhase(files[..0], ["articles"], remote) == Progress([], [], true);
    assert FilesPhase(files, ["articles"], remote) == Progress([] + calls, [] + [], true);
    assert UploadLog(files, remote) == [ListCollections] + calls + [];
    assert RunLog(files, remote) == [ClearCache] + ([ListCollections] + calls);
  }

  /** The articles definition on its own: the collection is listed, title is listed, and only
      summary is posted, with the "id" key of its meta removed. */
  lemma ArticlesRequests()
    ensures FileCalls(Articles, ["articles"], Fetched(["title"])) ==
      [ListFields("articles"), CreateField("articles", Field("summary", Some(JObj(map["note" := JStr("short")])), map[]))]
  {
    assert MissingFields([Summary], ["title"]) == [Summary];
    assert MissingFields([Title, Summary], ["title"]) == [Summary] by {
      assert [Title, Summary][1..] == [Summary];
    }
    assert map["id" := JNum(7), "note" := JStr("short")] - {"id"} == map["note" := JStr("short")];
    assert HasTruthyMetaId(Summary);
    var sentSummary := Field("summary", Some(JObj(map["note" := JStr("short")])), map[]);
    assert StripMetaId(Summary) == sentSummary;
    assert FieldPosts("articles", [Summary]) == [CreateField("articles", sentSummary)] by {
      assert [Summary][1..] == [];
    }
    assert FieldCalls(Articles, Fetched(["title"])) == [ListFields("articles"), CreateField("articles", sentSummary)];
  }

  /** The requests of uploadCollections and main, issued through the gateway. */
  class CollectionUploader {
    const gateway: Gateway<CollectionCall>

    constructor (gateway: Gateway<CollectionCall>)
      ensures this.gateway == gateway
    {
      this.gateway := gateway;
    }

    /** resetDirectusCache: a refusal is only logged. */
    method ResetCache()
      modifies gateway
      ensures gateway.log == old(gateway.log) + [ClearCache]
    {
      var _ := gateway.Send(ClearCache);
    }

    /** fetchExistingCollections: the listed names, or none when the request fails. */
    method FetchExistingCollections(listing: Listing<string>) returns (names: seq<string>)
      modifies gateway
      ensures gateway.log == old(gateway.log) + [ListCollections]
      ensures names == Inventory(listing)
    {
      gateway.Get(ListCollections);
      names := Inventory(listing);
    }

    /** fetchExistingFields: the listed field names, or none when the request fails. */
    method FetchExistingFields(collectionName: string, listing: Listing<string>) returns (names: seq<string>)
      modifies gateway
      ensures gateway.log == old(gateway.log) + [ListFields(collectionName)]
      ensures names == Inventory(listing)
    {
      gateway.Get(ListFields(collectionName));
      names := Inventory(listing);
    }

    /** fetchExistingRelations: the listed relations, or none when the request fails. */
    method FetchExistingRelations(collectionName: string, listing: Listing<Relation>) returns (relations: seq<Relation>)
      modifies gateway
      ensures gateway.log == old(gateway.log) + [ListRelations(collectionName)]
      ensures relations == Inventory(listing)
    {
      gateway.Get(ListRelations(collectionName));
      relations := Inventory(listing);
    }

    /** createCollection: the fields lose their truthy meta.id, then the collection is posted;
        `sent` is the collection as the caller sees it afterwards. */
    method CreateCollection(collection: Collection) returns (sent: Collection)
      modifies gateway
      ensures sent == Stripped(collection)
      ensures gateway.log == old(gateway.log) + [CollectionCall.CreateCollection(sent)]
    {
      sent := collection;
      if collection.fields.Some? {
        var fields := StripFieldIds(collection.fields.value);
        sent := collection.(fields := Some(fields));
      }
      var _ := gateway.Send(CollectionCall.CreateCollection(sent));
    }

    /** createFieldsForCollection: each field is stripped and posted; a refusal is only logged. */
    method CreateFieldsForCollection(collectionName: string, fields: seq<Field>)
      modifies gateway
      ensures gateway.log == old(gateway.log) + FieldPosts(collectionName, fields)
    {
      ghost var start := gateway.log;
      for i := 0 to |fields|
        invariant gateway.log == start + FieldPosts(collectionName, fields[..i])
      {
        FieldPostsAppend(collectionName, fields[..i], fields[i]);
        assert fields[..i + 1] == fields[..i] + [fields[i]];
        var field := StripMetaId(fields[i]);
        var _ := gateway.Send(CreateField(collectionName, field));
      }
      assert fields[..|fields|] == fields;
    }

    /** createRelationsForCollection: the listing, then a post for each relation not found in it. */
    method CreateRelationsForCollection(collectionName: string, relations: seq<Relation>, listing: Listing<Relation>)
      modifies gateway
      ensures gateway.log == old(gateway.log) + RelationCalls(PendingRelations(collectionName, relations), listing)
    {
      ghost var start := gateway.log;
      var existingRelations := FetchExistingRelations(collectionName, listing);
      ghost var listed := gateway.log;
      for i := 0 to |relations|
        invariant gateway.log == listed + RelationPosts(relations[..i], existingRelations)
      {
        RelationPostsAppend(relations[..i], relations[i], existingRelations);
        assert relations[..i + 1] == relations[..i] + [relations[i]];
        var relationExists := RelationExists(existingRelations, relations[i]);
        AnySameKeyMeans(existingRelations, relations[i]);
        if !relationExists {
          var _ := gateway.Send(CreateRelation(relations[i]));
        }
      }
      assert relations[..|relations|] == relations;
      Associative(start, [ListRelations(collectionName)], RelationPosts(relations, existingRelations));
    }

    /** uploadCollections: the collection listing, each definition file in readdir order, and
        the kept relations once every file has been handled; false when a file fails to read
        or parse, which throws out of the function before any relation is created. */
    method UploadCollections(files: seq<CollectionFile>, remote: RemoteState) returns (completed: bool)
      modifies gateway
      ensures gateway.log == old(gateway.log) + UploadLog(files, remote)
      ensures completed == FilesPhase(files, Inventory(remote.collections), remote).completed
    {
      ghost var start := gateway.log;
      var existingCollections := FetchExistingCollections(remote.collections);
      ghost var p := FilesPhase(files, existingCollections, remote);
      var relationsToCreate;
      completed, relationsToCreate := UploadFiles(files, existingCollections, remote);
      ghost var uploaded := gateway.log;
      if completed {
        CreateAllRelations(relationsToCreate, remote);
      }
      ghost var tail := if completed then RelationsPhase(relationsToCreate, remote) else [];
      Associative(start, [ListCollections], p.calls);
      Associative(start, [ListCollections] + p.calls, tail);
    }

    /** The loop of uploadCollections over the directory entries. */
    method UploadFiles(files: seq<CollectionFile>, existingCollections: seq<string>, remote: RemoteState)
      returns (completed: bool, relationsToCreate: seq<PendingRelations>)
      modifies gateway
      ensures var p := FilesPhase(files, existingCollections, remote);
        gateway.log == old(gateway.log) + p.calls && completed == p.completed && relationsToCreate == p.pending
    {
      ghost var start := gateway.log;
      relationsToCreate := [];
      ghost var sent: seq<CollectionCall> := [];
      for i := 0 to |files|
        invariant gateway.log == start + sent
        invariant FilesPhase(files[..i], existingCollections, remote) == Progress(sent, relationsToCreate, true)
      {
        ghost var upto := files[..i + 1];
        assert upto[..i] == files[..i] && upto[i] == files[i];
        if files[i].content.None? {
          FilesPhaseHalts(files, existingCollections, remote, i + 1);
          return false, relationsToCreate;
        }
        var collection := files[i].content.value;
        ghost var here := FileCalls(collection, existingCollections, FieldListing(remote, i));
        UploadDefinition(collection, existingCollections, FieldListing(remote, i));
        if collection.relations.Some? {
          relationsToCreate := relationsToCreate + [PendingRelations(collection.name, collection.relations.value)];
        }
        Associative(start, sent, here);
        sent := sent + here;
      }
      assert files[..|files|] == files;
      return true, relationsToCreate;
    }

    /** The body of the file loop for a parsed definition. */
    method UploadDefinition(collection: Collection, existingCollections: seq<string>, listing: Listing<string>)
      modifies gateway
      ensures gateway.log == old(gateway.log) + FileCalls(collection, existingCollections, listing)
    {
      ghost var start := gateway.log;
      var current := collection;
      if collection.name !in existingCollections {
        current := CreateCollection(collection);
        StripKeepsFieldCalls(collection, listing);
      }
      ghost var head := gateway.log[|start|..];
      assert gateway.log == start + head;
      UploadFields(current, listing);
      Associative(start, head, FieldCalls(collection, listing));
    }

    /** The field part of the file loop body. */
    method UploadFields(collection: Collection, listing: Listing<string>)
      modifies gateway
      ensures gateway.log == old(gateway.log) + FieldCalls(collection, listing)
    {
      if collection.fields.Some? {
        ghost var start := gateway.log;
        var existingFields := FetchExistingFields(collection.name, listing);
        var fieldsToCreate := MissingFields(collection.fields.value, existingFields);
        if |fieldsToCreate| > 0 {
          CreateFieldsForCollection(collection.name, fieldsToCreate);
        }
        Associative(start, [ListFields(collection.name)], FieldPosts(collection.name, fieldsToCreate));
      }
    }

    /** The relation loop of uploadCollections. */
    method CreateAllRelations(relationsToCreate: seq<PendingRelations>, remote: RemoteState)
      modifies gateway
      ensures gateway.log == old(gateway.log) + RelationsPhase(relationsToCreate, remote)
    {
      ghost var start := gateway.log;
      for j := 0 to |relationsToCreate|
        invariant gateway.log == start + RelationsPhase(relationsToCreate[..j], remote)
      {
        ghost var upto := relationsToCreate[..j + 1];
        assert upto[..j] == relationsToCreate[..j] && upto[j] == relationsToCreate[j];
        ghost var done := RelationsPhase(relationsToCreate[..j], remote);
        var entry := relationsToCreate[j];
        CreateRelationsForCollection(entry.collectionName, entry.relations, RelationListing(remote, j));
        Associative(start, done, RelationCalls(entry, RelationListing(remote, j)));
      }
      assert relationsToCreate[..|relationsToCreate|] == relationsToCreate;
    }

    /** main: reset the cache, then upload; whatever uploadCollections throws is only logged. */
    method Run(files: seq<CollectionFile>, remote: RemoteState)
      modifies gateway
      ensures gateway.log == old(gateway.log) + RunLog(files, remote)
    {
      ghost var start := gateway.log;
      ResetCache();
      var _ := UploadCollections(files, remote);
      Associative(start, [ClearCache], UploadLog(files, remote));
    }
  }

  /** The include-loop of createRelationsForCollection, stopping at the first match. */
  method RelationExists(existingRelations: seq<Relation>, relation: Relation) returns (found: bool)
    ensures found <==> exists i :: 0 <= i < |existingRelations| && SameKey(existingRelations[i], relation)
  {
    found := false;
    for i := 0 to |existingRelations|
      invariant !found
      invariant forall k :: 0 <= k < i ==> !SameKey(existingRelations[k], relation)
    {
      if existingRelations[i].field == relation.field && existingRelations[i].relatedCollection == relation.relatedCollection {
        return true;
      }
    }
  }

  /** The loop of createCollection over the fields, removing each truthy meta.id. */
  method StripFieldIds(fields: seq<Field>) returns (stripped: seq<Field>)
    ensures stripped == StripAll(fields)
  {
    stripped := fields;
    for i := 0 to |fields|
      invariant |stripped| == |fields|
      invariant forall k :: 0 <= k < i ==> stripped[k] == StripMetaId(fields[k])
      invariant forall k :: i <= k < |fields| ==> stripped[k] == fields[k]
    {
      if stripped[i].meta.Some? && stripped[i].meta.value.JObj? && "id" in stripped[i].meta.value.entries && Truthy(stripped[i].meta.value.entries["id"]) {
        stripped := stripped[i := stripped[i].(meta := Some(JObj(stripped[i].meta.value.entries - {"id"})))];
      }
    }
  }

  /** FieldPosts grows one request per field appended. */
  lemma {:induction false} FieldPostsAppend(collectionName: string, fields: seq<Field>, field: Field)
    ensures FieldPosts(collectionName, fields + [field]) == FieldPosts(collectionName, fields) + [CreateField(collectionName, StripMetaId(field))]
    decreases |fields|
  {
    var last := [CreateField(collectionName, StripMetaId(field))];
    if fields == [] {
      assert [] + [field] == [field];
      assert FieldPosts(collectionName, [field]) == last + [];
    } else {
      var first := [CreateField(collectionName, StripMetaId(fields[0]))];
      var longer := fields + [field];
      assert longer[0] == fields[0] && longer[1..] == fields[1..] + [field];
      assert FieldPosts(collectionName, longer) == first + FieldPosts(collectionName, fields[1..] + [field]);
      FieldPostsAppend(collectionName, fields[1..], field);
      Associative(first, FieldPosts(collectionName, fields[1..]), last);
    }
  }

  /** RelationPosts grows by the post of an appended relation when it is not listed. */
  lemma {:induction false} RelationPostsAppend(relations: seq<Relation>, relation: Relation, existing: seq<Relation>)
    ensures RelationPosts(relations + [relation], existing) ==
      RelationPosts(relations, existing) + if AnySameKey(existing, relation) then [] else [CreateRelation(relation)]
    decreases |relations|
  {
    var last: seq<CollectionCall> := if AnySameKey(existing, relation) then [] else [CreateRelation(relation)];
    if relations == [] {
      assert [] + [relation] == [relation];
      assert RelationPosts([relation], existing) == last + [];
    } else {
      var first: seq<CollectionCall> := if AnySameKey(existing, relations[0]) then [] else [CreateRelation(relations[0])];
      var longer := relations + [relation];
      assert longer[0] == relations[0] && longer[1..] == relations[1..] + [relation];
      assert RelationPosts(longer, existing) == first + RelationPosts(relations[1..] + [relation], existing);
      RelationPostsAppend(relations[1..], relation, existing);
      Associative(first, RelationPosts(relations[1..], existing), last);
    }
  }

  /** createCollection's in-place strip leaves the field requests that follow unchanged. */
  lemma StripKeepsFieldCalls(c: Collection, listing: Listing<string>)
    ensures FieldCalls(Stripped(c), listing) == FieldCalls(c, listing)
  {
    if c.fields.Some? {
      StripBeforeFilterPostsTheSame(c.name, c.fields.value, Inventory(listing));
    }
  }
}
