/** The part of the file system that holds one domain of the certificate store, as a value, and the
    reading side of the store: what a generation directory must look like to be accepted, and what
    `current` names. Certificates and digests are abstract (`Pki`). */
module FileTree {
  import opened Common

  /** Names of directories under releases/ and generations/. Temp(x) is the name ".tmp-x", which the store
      gives to directories it is still writing. */
  datatype Id = Name(text: string) | Temp(suffix: string)

  datatype FileName = Cert | Key | Fullchain | Ca | TimeLog

  const FIXED_FILES: seq<FileName> := [Cert, Key, Fullchain, Ca, TimeLog]

  /** Names of directory entries: the fixed files, manifest.json, or anything else. */
  datatype EntryName = Fixed(file: FileName) | ManifestJson | Other(name: string)

  datatype Item = Item(name: EntryName, size: nat, sha: string)

  /** Subject alternative names are kept as a set: the code compares them as sets. */
  datatype Manifest = Manifest(
    generation: Id, revision: int, domain: string, sans: set<string>,
    serial: string, fingerprint: string, files: seq<Item>)

  /** A manifest file holds either the full manifest or, in old stores, only the list of files. */
  datatype StoredManifest = Full(manifest: Manifest) | FilesOnly(files: seq<Item>)

  datatype Data = Bytes(raw: string) | Encoded(stored: StoredManifest)

  datatype Entry = Regular(data: Data) | Irregular

  type Dir = map<EntryName, Entry>

  /** An entry of releases/ or generations/: a directory, or a symbolic link or another file in its place. */
  datatype Slot = Folder(dir: Dir) | Alias | Plain

  /** `current`: absent, a symbolic link to releases/<gen>, an old text file, or anything else. */
  datatype Pointer = Absent | Link(gen: Id) | Text(gen: Id) | Junk

  datatype Tree = Tree(
    current: Pointer,
    releases: map<Id, Slot>,
    legacy: map<Id, Slot>,
    staged: map<string, Pointer>)

  datatype Leaf = Leaf(serial: string, fingerprint: string, sans: set<string>)

  /** Cryptography and X.509, known only through these functions. */
  datatype Pki = Pki(
    digest: Data -> string,
    size: Data -> nat,
    leaf: Data -> Option<Leaf>,
    accepts: (string, map<FileName, Data>, seq<string>) -> bool)

  datatype Loaded = Loaded(manifest: Manifest, files: map<FileName, Data>)

  /** The largest uint64. */
  const MAX_REVISION := 0xFFFF_FFFF_FFFF_FFFF

  /** A generation identifier: one path segment of at most 128 unreserved characters. */
  predicate ValidId(id: Id) {
    match id
    case Name(text) => 0 < |text| <= 128 && text != "." && text != ".." && forall i :: 0 <= i < |text| ==>
      Unreserved(text[i])
    case Temp(suffix) => |suffix| <= 123 && forall i :: 0 <= i < |suffix| ==> Unreserved(suffix[i])
  }

  /** The six regular files of a generation, no more and no fewer. */
  predicate CompleteContents(dir: Dir) {
    && dir.Keys == {Fixed(Cert), Fixed(Key), Fixed(Fullchain), Fixed(Ca), Fixed(TimeLog), ManifestJson}
    && forall e :: e in dir ==> dir[e].Regular?
  }

  /** A list of files names each fixed file exactly once. */
  predicate CompleteItems(items: seq<Item>) {
    |items| == 5 && forall f: FileName :: exists i :: 0 <= i < |items| && items[i].name == Fixed(f)
  }

  predicate Describes(pki: Pki, item: Item, dir: Dir) {
    && item.name in dir
    && dir[item.name].Regular?
    && item.size == pki.size(dir[item.name].data)
    && item.sha == pki.digest(dir[item.name].data)
  }

  function FilesOf(dir: Dir): map<FileName, Data>
    requires CompleteContents(dir)
  {
    map f: FileName | f in {Cert, Key, Fullchain, Ca, TimeLog} :: dir[Fixed(f)].data
  }

  /** Read and check one generation directory. */
  function LoadGeneration(pki: Pki, domain: string, gen: Id, dir: Dir): (r: Option<Loaded>)
    ensures r.Some? ==>
      && ValidId(gen) && CompleteContents(dir)
      && r.value.manifest.generation == gen && r.value.manifest.domain == domain
      && 0 < r.value.manifest.revision <= MAX_REVISION
      && r.value.files == FilesOf(dir)
      && pki.leaf(r.value.files[Cert]) == Some(Leaf(r.value.manifest.serial, r.value.manifest.fingerprint,
           r.value.manifest.sans))
      && CompleteItems(r.value.manifest.files)
      && forall i :: 0 <= i < |r.value.manifest.files| ==> Describes(pki, r.value.manifest.files[i], dir)
  {
    if !CompleteContents(dir) || !ValidId(gen) then None
    else
      match dir[ManifestJson].data
      case Bytes(_) => None
      case Encoded(stored) =>
        var items := if stored.Full? then stored.manifest.files else stored.files;
        var leaf := pki.leaf(dir[Fixed(Cert)].data);
        if !CompleteItems(items) || leaf.None?
          || exists i :: 0 <= i < |items| && !Describes(pki, items[i], dir) then None
        else
          var l := leaf.value;
          var m := if stored.Full? then stored.manifest
                   else Manifest(gen, 1, domain, l.sans, l.serial, l.fingerprint, items);
          if m.generation == gen && m.domain == domain && 0 < m.revision <= MAX_REVISION
             && m.sans == l.sans && m.serial == l.serial && m.fingerprint == l.fingerprint
          then Some(Loaded(m, FilesOf(dir)))
          else None
  }

  /** The list names the five fixed files, each as it lies in the directory. */
  ghost predicate ListsAll(pki: Pki, items: seq<Item>, dir: Dir)
    requires CompleteContents(dir)
  {
    && |items| == 5
    && (forall f: FileName :: exists i :: 0 <= i < |items| && items[i].name == Fixed(f))
    && forall i :: 0 <= i < |items| ==>
         items[i].name in dir && items[i].size == pki.size(dir[items[i].name].data)
         && items[i].sha == pki.digest(dir[items[i].name].data)
  }

  /** Exactly which directories with a full manifest load: those whose manifest is this generation's, lists the
      files as they are, and says what the certificate says. They load as that manifest. */
  lemma FullLoadsIff(pki: Pki, domain: string, gen: Id, dir: Dir, m: Manifest)
    requires CompleteContents(dir) && ValidId(gen) && dir[ManifestJson].data == Encoded(Full(m))
    ensures LoadGeneration(pki, domain, gen, dir) ==
      if m.generation == gen && m.domain == domain && 0 < m.revision <= 0xFFFF_FFFF_FFFF_FFFF
        && ListsAll(pki, m.files, dir)
         && pki.leaf(dir[Fixed(Cert)].data) == Some(Leaf(m.serial, m.fingerprint, m.sans))
      then Some(Loaded(m, FilesOf(dir))) else None
  {
    forall i | 0 <= i < |m.files| ensures Describes(pki, m.files[i], dir) <==> (m.files[i].name in dir
      && m.files[i].size == pki.size(dir[m.files[i].name].data)
      && m.files[i].sha == pki.digest(dir[m.files[i].name].data)) {}
  }

  /** Exactly which directories of an old store load, whose manifest is only the list of files: as revision 1,
      and as what the certificate says. */
  lemma ListLoadsIff(pki: Pki, domain: string, gen: Id, dir: Dir, items: seq<Item>)
    requires CompleteContents(dir) && ValidId(gen) && dir[ManifestJson].data == Encoded(FilesOnly(items))
    ensures var leaf := pki.leaf(dir[Fixed(Cert)].data);
      LoadGeneration(pki, domain, gen, dir) ==
        if ListsAll(pki, items, dir) && leaf.Some?
        then Some(Loaded(Manifest(gen, 1, domain, leaf.value.sans, leaf.value.serial, leaf.value.fingerprint, items),
          FilesOf(dir)))
        else None
  {
    forall i | 0 <= i < |items| ensures Describes(pki, items[i], dir) <==> (items[i].name in dir
      && items[i].size == pki.size(dir[items[i].name].data) && items[i].sha == pki.digest(dir[items[i].name].data)) {}
  }

  /** The files of a generation that loads are those of its directory, each under its own name. */
  lemma LoadedFilesAre(pki: Pki, domain: string, gen: Id, dir: Dir, f: FileName)
    requires LoadGeneration(pki, domain, gen, dir).Some?
    ensures var files := LoadGeneration(pki, domain, gen, dir).value.files;
      f in files && dir[Fixed(f)].Regular? && files[f] == dir[Fixed(f)].data
  {
    assert f in {Cert, Key, Fullchain, Ca, TimeLog};
  }

  /** Nothing else loads. */
  lemma OthersDoNotLoad(pki: Pki, domain: string, gen: Id, dir: Dir)
    requires CompleteContents(dir) && ValidId(gen) ==> dir[ManifestJson].data.Bytes?
    ensures LoadGeneration(pki, domain, gen, dir).None?
  {
  }

  function LoadSlot(pki: Pki, domain: string, gen: Id, slot: Slot): Option<Loaded> {
    if slot.Folder? then LoadGeneration(pki, domain, gen, slot.dir) else None
  }

  /** Outcome of following a name: a generation, nothing there, or something the store refuses. */
  datatype Reading = Reading(gen: Id, loaded: Loaded) | NotFound | Refused

  function ReadSlot(pki: Pki, domain: string, gen: Id, slot: Slot): Reading {
    match LoadSlot(pki, domain, gen, slot)
    case None => Refused
    case Some(l) => Reading(gen, l)
  }

  /** currentState without migration. A link that dangles reads as NotFound, like an absent one. */
  function ReadCurrent(pki: Pki, domain: string, t: Tree): Reading {
    match t.current
    case Absent => NotFound
    case Junk => Refused
    case Link(g) =>
      if !ValidId(g) then Refused
      else if g !in t.releases then NotFound
      else ReadSlot(pki, domain, g, t.releases[g])
    case Text(g) =>
      if !ValidId(g) then Refused else ReadByName(pki, domain, t, g)
  }

  /** resolveGeneration and loadGeneration for an explicit generation: releases/ first, then generations/. */
  function ReadByName(pki: Pki, domain: string, t: Tree, g: Id): Reading {
    if !ValidId(g) then Refused
    else if g in t.releases then ReadSlot(pki, domain, g, t.releases[g])
    else if g in t.legacy && t.legacy[g].Folder? then ReadSlot(pki, domain, g, t.legacy[g])
    else NotFound
  }

  /** Where the files of generation `g` are: in releases/ if that has an entry of the name, else, for readers by
      name and for old text pointers, in generations/. */
  ghost predicate LiesAt(t: Tree, g: Id, slot: Slot, textual: bool) {
    ValidId(g) && if g in t.releases then slot == t.releases[g] else textual && g in t.legacy && slot == t.legacy[g]
  }

  /** When a name reads, as what, and when it counts as not there rather than refused. */
  lemma ByNameReadsIff(pki: Pki, domain: string, t: Tree, g: Id)
    ensures forall l :: ReadByName(pki, domain, t, g) == Reading(g, l) <==>
      exists slot :: LiesAt(t, g, slot, true) && slot.Folder? && LoadGeneration(pki, domain, g, slot.dir) == Some(l)
    ensures ReadByName(pki, domain, t, g) == NotFound <==>
      ValidId(g) && g !in t.releases && (g !in t.legacy || !t.legacy[g].Folder?)
  {
    forall slot | LiesAt(t, g, slot, true) ensures slot == if g in t.releases then t.releases[g] else t.legacy[g] {}
    if g in t.releases {
      assert ValidId(g) ==> LiesAt(t, g, t.releases[g], true);
    } else if g in t.legacy {
      assert ValidId(g) ==> LiesAt(t, g, t.legacy[g], true);
    }
  }

  /** The same for `current`: a link leads into releases/ only, an old text also into generations/. */
  lemma CurrentReadsIff(pki: Pki, domain: string, t: Tree)
    ensures forall g, l :: ReadCurrent(pki, domain, t) == Reading(g, l) <==>
      && (t.current == Link(g) || t.current == Text(g))
      && exists slot ::
           LiesAt(t, g, slot, t.current.Text?) && slot.Folder? && LoadGeneration(pki, domain, g, slot.dir) == Some(l)
    ensures ReadCurrent(pki, domain, t) == NotFound <==>
      || t.current.Absent?
      || (t.current.Link? && ValidId(t.current.gen) && t.current.gen !in t.releases)
      || (t.current.Text? && ValidId(t.current.gen) && t.current.gen !in t.releases
          && (t.current.gen !in t.legacy || !t.legacy[t.current.gen].Folder?))
  {
    if t.current.Text? { ByNameReadsIff(pki, domain, t, t.current.gen); }
    if t.current.Link? && t.current.gen in t.releases && ValidId(t.current.gen) {
      assert LiesAt(t, t.current.gen, t.releases[t.current.gen], false);
    }
  }

  /** The store's safety property: `current` does not exist, or names a generation that loads. */
  predicate Sound(pki: Pki, domain: string, t: Tree) {
    t.current.Absent? || (ReadCurrent(pki, domain, t).Reading? && !t.current.gen.Temp?)
  }

  /** Readers of `s` see exactly what readers of `t` see: through `current` and by name. */
  ghost predicate SameReadings(pki: Pki, domain: string, t: Tree, s: Tree) {
    && ReadCurrent(pki, domain, s) == ReadCurrent(pki, domain, t)
    && forall g: Id :: ReadByName(pki, domain, s, g) == ReadByName(pki, domain, t, g)
  }
}
