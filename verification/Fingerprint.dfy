/** The input fingerprint of a benchmark run: a walk over files, links and directories that
    records every path once and stops at directory cycles (scripts/benchmark_cli.py:107-184). */
module Fingerprint {
  import opened Orders
  import opened Framing

  // -------------------------------------------------------------- file systems

  /** Device and inode of a directory. */
  datatype Identity = Identity(device: int, inode: int)

  /** The rendered mode, size and modification time of a path. */
  datatype Info = Info(mode: Bytes, size: Bytes, mtime: Bytes)

  /** The rendered format of something that is no directory, regular file or link. */
  type OtherFormat = f: Bytes | f != TypeText(DIRECTORY) && f != TypeText(REGULAR) && f != TypeText(LINK) && f != TypeText(MISSING)
    witness []

  datatype FileType = DIRECTORY | REGULAR | LINK | MISSING

  /** S_IFDIR, S_IFREG and S_IFLNK in decimal, and the word for a path that is not there. */
  function TypeText(t: FileType): Bytes {
    match t
    case DIRECTORY => [49, 54, 51, 56, 52]
    case REGULAR => [51, 50, 55, 54, 56]
    case LINK => [52, 48, 57, 54, 48]
    case MISSING => [109, 105, 115, 115, 105, 110, 103]
  }

  /** The hash of a file's bytes, or the error of reading it. */
  datatype Content = Hashed(digest: Bytes) | Unread(error: Bytes)

  /** Following a path to a directory: its identity, or an error. */
  datatype Folder = Found(id: Identity) | Lost(error: Bytes)

  /** What `lstat` and, for links, `readlink` and `stat` say about a path. */
  datatype Node =
    | Absent(error: Bytes)
    | File(info: Info, content: Content)
    | Directory(info: Info, folder: Folder)
    | Special(info: Info, format: OtherFormat)
    | LinkUnreadable(info: Info, error: Bytes)
    | LinkBroken(info: Info, text: Bytes, error: Bytes)
    | LinkToFile(info: Info, text: Bytes, content: Content)
    | LinkToDirectory(info: Info, text: Bytes, folder: Folder)
    | LinkToSpecial(info: Info, text: Bytes)

  datatype Entry = Entry(name: Bytes, node: Node)

  /** A finite directory graph. Links may lead anywhere, so it may have cycles. */
  datatype FileSystem = FileSystem(listings: map<Identity, seq<Entry>>, scanError: Identity -> Bytes)

  // ------------------------------------------------------------ what is observed

  /** What a walk records of a path. A link to something special leaves the same record as a link
      to an empty directory. */
  datatype View =
    | Gone(error: Bytes)
    | Plain(info: Info, content: Content)
    | Tree(info: Info, listing: Listing)
    | Other(info: Info, format: OtherFormat)
    | Sealed(info: Info, error: Bytes)
    | Dangling(info: Info, text: Bytes, error: Bytes)
    | FileLink(info: Info, text: Bytes, content: Content)
    | TreeLink(info: Info, text: Bytes, listing: Listing)

  datatype Listing = NoStat(error: Bytes) | Cycle | NoScan(error: Bytes) | Children(children: seq<Child>)

  datatype Child = Child(name: Bytes, view: View)

  function TextOf(bytes: Bytes): string {
    seq(|bytes|, i requires 0 <= i < |bytes| => bytes[i] as char)
  }

  function NameText(): Entry -> string {
    (e: Entry) => TextOf(e.name)
  }

  function InOrder(entries: seq<Entry>): seq<Entry> {
    Sort(ByText(NameText()), entries)
  }

  /** The walk. Every directory entered leaves one identity fewer to enter below it, so it ends on
      every finite directory graph. */
  function ViewOf(fs: FileSystem, node: Node, active: set<Identity>): View
    decreases fs.listings.Keys - active, 1, 0
  {
    match node
    case Absent(error) => Gone(error)
    case File(info, content) => Plain(info, content)
    case Directory(info, folder) => Tree(info, ListingOf(fs, folder, active))
    case Special(info, format) => Other(info, format)
    case LinkUnreadable(info, error) => Sealed(info, error)
    case LinkBroken(info, text, error) => Dangling(info, text, error)
    case LinkToFile(info, text, content) => FileLink(info, text, content)
    case LinkToDirectory(info, text, folder) => TreeLink(info, text, ListingOf(fs, folder, active))
    case LinkToSpecial(info, text) => TreeLink(info, text, Children([]))
  }

  function ListingOf(fs: FileSystem, folder: Folder, active: set<Identity>): Listing
    decreases fs.listings.Keys - active, 0, 0
  {
    match folder
    case Lost(error) => NoStat(error)
    case Found(id) =>
      if id in active then Cycle
      else if id !in fs.listings then NoScan(fs.scanError(id))
      else
        assert id in fs.listings.Keys - active;
        Children(ChildrenOf(fs, InOrder(fs.listings[id]), active + {id}))
  }

  function ChildrenOf(fs: FileSystem, entries: seq<Entry>, active: set<Identity>): seq<Child>
    decreases fs.listings.Keys - active, 2, |entries|
  {
    if entries == [] then []
    else [Child(entries[0].name, ViewOf(fs, entries[0].node, active))] + ChildrenOf(fs, entries[1..], active)
  }

  /** A link to an empty directory that the walk enters. */
  predicate EntersNothing(fs: FileSystem, node: Node, info: Info, text: Bytes, active: set<Identity>) {
    && node.LinkToDirectory? && node.info == info && node.text == text && node.folder.Found?
    && node.folder.id !in active && node.folder.id in fs.listings && fs.listings[node.folder.id] == []
  }

  // -------------------------------------------------- what looks alike to a walk

  /** Two paths, each in its own file system and below its own active directories, that look alike:
      of the same kind, with the same facts, text, content, format and errors, and for directories with
      listings that look alike. A link to something special looks like a link to an empty directory. */
  ghost predicate LooksAlike(fs: FileSystem, x: Node, active: set<Identity>, fs': FileSystem, y: Node, active': set<Identity>)
    decreases fs.listings.Keys - active, 2, 0
  {
    match x
    case Directory(info, folder) =>
      y.Directory? && y.info == info && FoldersAlike(fs, folder, active, fs', y.folder, active')
    case LinkToDirectory(info, text, folder) =>
      || (&& y.LinkToDirectory? && y.info == info && y.text == text
          && FoldersAlike(fs, folder, active, fs', y.folder, active'))
      || (y == LinkToSpecial(info, text) && EntersNothing(fs, x, info, text, active))
    case LinkToSpecial(info, text) =>
      y == x || EntersNothing(fs', y, info, text, active')
    case _ =>
      y == x
  }

  /** Lost with one error, cycles, unlistable with one error, or listing the same names for paths that
      look alike. */
  ghost predicate FoldersAlike(fs: FileSystem, x: Folder, active: set<Identity>, fs': FileSystem, y: Folder, active': set<Identity>)
    decreases fs.listings.Keys - active, 1, 0
  {
    if x.Lost? || y.Lost? then x == y
    else if x.id in active || y.id in active' then x.id in active && y.id in active'
    else if x.id !in fs.listings || y.id !in fs'.listings then
      x.id !in fs.listings && y.id !in fs'.listings && fs.scanError(x.id) == fs'.scanError(y.id)
    else
      assert x.id in fs.listings.Keys - active;
      EntriesAlike(fs, InOrder(fs.listings[x.id]), active + {x.id}, fs', InOrder(fs'.listings[y.id]), active' + {y.id})
  }

  ghost predicate EntriesAlike(fs: FileSystem, xs: seq<Entry>, active: set<Identity>, fs': FileSystem, ys: seq<Entry>, active': set<Identity>)
    decreases fs.listings.Keys - active, 3, 0
  {
    && |xs| == |ys|
    && forall i :: 0 <= i < |xs| ==>
         xs[i].name == ys[i].name && LooksAlike(fs, xs[i].node, active, fs', ys[i].node, active')
  }

  lemma {:induction false} ChildrenOfAt(fs: FileSystem, entries: seq<Entry>, active: set<Identity>)
    ensures |ChildrenOf(fs, entries, active)| == |entries|
    ensures forall i :: 0 <= i < |entries| ==>
              ChildrenOf(fs, entries, active)[i] == Child(entries[i].name, ViewOf(fs, entries[i].node, active))
    decreases |entries|
  {
    hide ViewOf;
    if entries != [] {
      ChildrenOfAt(fs, entries[1..], active);
    }
  }

  /** Views are equal exactly when what is viewed looks alike. */
  lemma {:induction false} ViewsMeanLooks(fs: FileSystem, x: Node, active: set<Identity>, fs': FileSystem, y: Node, active': set<Identity>)
    ensures ViewOf(fs, x, active) == ViewOf(fs', y, active') <==> LooksAlike(fs, x, active, fs', y, active')
    decreases fs.listings.Keys - active, 2, 0
  {
    if (x.Directory? && y.Directory?) || (x.LinkToDirectory? && y.LinkToDirectory?) {
      ListingsMeanLooks(fs, x.folder, active, fs', y.folder, active');
    } else if x.LinkToDirectory? && y.LinkToSpecial? {
      EmptyListing(fs, x.folder, active);
    } else if x.LinkToSpecial? && y.LinkToDirectory? {
      EmptyListing(fs', y.folder, active');
    }
  }

  lemma {:induction false} ListingsMeanLooks(fs: FileSystem, x: Folder, active: set<Identity>, fs': FileSystem, y: Folder, active': set<Identity>)
    ensures ListingOf(fs, x, active) == ListingOf(fs', y, active') <==> FoldersAlike(fs, x, active, fs', y, active')
    decreases fs.listings.Keys - active, 1, 0
  {
    if x.Found? && y.Found? && x.id !in active && y.id !in active' && x.id in fs.listings && y.id in fs'.listings {
      assert x.id in fs.listings.Keys - active && y.id in fs'.listings.Keys - active';
      ChildrenMeanLooks(fs, InOrder(fs.listings[x.id]), active + {x.id}, fs', InOrder(fs'.listings[y.id]), active' + {y.id});
    }
  }

  lemma {:induction false} ChildrenMeanLooks(fs: FileSystem, xs: seq<Entry>, active: set<Identity>, fs': FileSystem, ys: seq<Entry>, active': set<Identity>)
    ensures ChildrenOf(fs, xs, active) == ChildrenOf(fs', ys, active') <==> EntriesAlike(fs, xs, active, fs', ys, active')
    decreases fs.listings.Keys - active, 3, 0
  {
    var a, b := ChildrenOf(fs, xs, active), ChildrenOf(fs', ys, active');
    ChildrenOfAt(fs, xs, active);
    ChildrenOfAt(fs', ys, active');
    hide ChildrenOf, ViewOf, LooksAlike;
    if |xs| == |ys| {
      forall i | 0 <= i < |xs|
        ensures a[i] == b[i] <==> xs[i].name == ys[i].name && LooksAlike(fs, xs[i].node, active, fs', ys[i].node, active')
      {
        ViewsMeanLooks(fs, xs[i].node, active, fs', ys[i].node, active');
      }
    }
  }

  /** Only an empty directory that is entered lists no children. */
  lemma EmptyListing(fs: FileSystem, folder: Folder, active: set<Identity>)
    ensures ListingOf(fs, folder, active) == Children([])
            <==> folder.Found? && folder.id !in active && folder.id in fs.listings && fs.listings[folder.id] == []
  {
    if folder.Found? && folder.id !in active && folder.id in fs.listings {
      assert folder.id in fs.listings.Keys - active;
      SortSameElements(ByText(NameText()), fs.listings[folder.id]);
      EmptyChildren(fs, InOrder(fs.listings[folder.id]), active + {folder.id});
    }
  }

  lemma EmptyChildren(fs: FileSystem, entries: seq<Entry>, active: set<Identity>)
    ensures ChildrenOf(fs, entries, active) == [] <==> entries == []
  {
  }

  // ------------------------------------------------------------ what is written

  datatype Tag =
    | Path | Type | Mode | Size | MtimeNs | LinkText | LinkError | ContentHash | ContentError
    | DirectoryError | DirectoryCycle | ScanError | StatError | ArgumentIndex | Argument

  /** The tag names in ASCII. */
  function TagBytes(tag: Tag): Bytes {
    match tag
    case Path => [112, 97, 116, 104]  // path
    case Type => [116, 121, 112, 101]  // type
    case Mode => [109, 111, 100, 101]  // mode
    case Size => [115, 105, 122, 101]  // size
    case MtimeNs => [109, 116, 105, 109, 101, 45, 110, 115]  // mtime-ns
    case LinkText => [108, 105, 110, 107]  // link
    case LinkError => [108, 105, 110, 107, 45, 101, 114, 114, 111, 114]  // link-error
    case ContentHash => [99, 111, 110, 116, 101, 110, 116]  // content
    case ContentError => [99, 111, 110, 116, 101, 110, 116, 45, 101, 114, 114, 111, 114]  // content-error
    case DirectoryError => [100, 105, 114, 101, 99, 116, 111, 114, 121, 45, 101, 114, 114, 111, 114]  // directory-error
    case DirectoryCycle => [100, 105, 114, 101, 99, 116, 111, 114, 121, 45, 99, 121, 99, 108, 101]  // directory-cycle
    case ScanError => [115, 99, 97, 110, 45, 101, 114, 114, 111, 114]  // scan-error
    case StatError => [115, 116, 97, 116, 45, 101, 114, 114, 111, 114]  // stat-error
    case ArgumentIndex => [97, 114, 103, 117, 109, 101, 110, 116, 45, 105, 110, 100, 101, 120]  // argument-index
    case Argument => [97, 114, 103, 117, 109, 101, 110, 116]  // argument
  }

  /** One field of the manifest before it is turned into bytes. */
  datatype Fact = Fact(tag: Tag, value: Bytes)

  function Below(at: Bytes, name: Bytes): Bytes {
    at + [47] + name
  }

  function InfoFacts(at: Bytes, format: Bytes, info: Info): seq<Fact> {
    [Fact(Path, at), Fact(Type, format), Fact(Mode, info.mode), Fact(Size, info.size), Fact(MtimeNs, info.mtime)]
  }

  function ContentFact(content: Content): Fact {
    match content
    case Hashed(digest) => Fact(ContentHash, digest)
    case Unread(error) => Fact(ContentError, error)
  }

  /** The facts that record a view under the label `at`. */
  function Flatten(view: View, at: Bytes): seq<Fact>
    decreases view, 0
  {
    match view
    case Gone(error) => [Fact(Path, at), Fact(Type, TypeText(MISSING)), Fact(StatError, error)]
    case Plain(info, content) => InfoFacts(at, TypeText(REGULAR), info) + [ContentFact(content)]
    case Tree(info, listing) => InfoFacts(at, TypeText(DIRECTORY), info) + FlattenListing(listing, at)
    case Other(info, format) => InfoFacts(at, format, info)
    case Sealed(info, error) => InfoFacts(at, TypeText(LINK), info) + [Fact(LinkError, error)]
    case Dangling(info, text, error) => InfoFacts(at, TypeText(LINK), info) + [Fact(LinkText, text), Fact(LinkError, error)]
    case FileLink(info, text, content) => InfoFacts(at, TypeText(LINK), info) + [Fact(LinkText, text), ContentFact(content)]
    case TreeLink(info, text, listing) => InfoFacts(at, TypeText(LINK), info) + [Fact(LinkText, text)] + FlattenListing(listing, at)
  }

  function FlattenListing(listing: Listing, at: Bytes): seq<Fact>
    decreases listing, 0
  {
    match listing
    case NoStat(error) => [Fact(DirectoryError, error)]
    case Cycle => [Fact(DirectoryCycle, [])]
    case NoScan(error) => [Fact(ScanError, error)]
    case Children(children) => FlattenChildren(children, at)
  }

  function FlattenChildren(children: seq<Child>, at: Bytes): seq<Fact>
    decreases children, 0
  {
    if children == [] then []
    else Flatten(children[0].view, Below(at, children[0].name)) + FlattenChildren(children[1..], at)
  }

  // ------------------------------------------------- the record is faithful

  /** File names hold no slash. */
  ghost predicate Named(view: View)
    decreases view, 0
  {
    match view
    case Tree(_, listing) => NamedListing(listing)
    case TreeLink(_, _, listing) => NamedListing(listing)
    case _ => true
  }

  ghost predicate NamedListing(listing: Listing)
    decreases listing, 0
  {
    listing.Children? ==> NamedChildren(listing.children)
  }

  ghost predicate NamedChildren(children: seq<Child>)
    decreases children, 0
  {
    children != [] ==> 47 !in children[0].name && Named(children[0].view) && NamedChildren(children[1..])
  }

  /** The label `other` lies strictly below `at`. */
  predicate Under(other: Bytes, at: Bytes) {
    |at| < |other| && other[..|at|] == at && other[|at|] == 47
  }

  /** What may follow the record of `at`: nothing, the next argument, or a path not below `at`. */
  predicate Follows(rest: seq<Fact>, at: Bytes) {
    || rest == []
    || rest[0].tag == ArgumentIndex
    || (rest[0].tag == Path && !Under(rest[0].value, at))
  }

  lemma UnderChild(other: Bytes, at: Bytes, name: Bytes)
    requires Under(other, Below(at, name))
    ensures Under(other, at)
  {
    var child := Below(at, name);
    assert other[..|child|] == child;
    assert other[..|at|] == child[..|at|] == at;
    assert other[|at|] == child[|at|];
  }

  lemma SiblingsApart(at: Bytes, name: Bytes, other: Bytes)
    requires 47 !in other
    ensures !Under(Below(at, other), Below(at, name))
  {
    assert |name| < |other| ==> Below(at, other)[|Below(at, name)|] == other[|name|];
  }

  lemma BelowIsInjective(at: Bytes, name: Bytes, other: Bytes)
    ensures Below(at, name) == Below(at, other) <==> name == other
    ensures Under(Below(at, name), at)
  {
    assert Below(at, name)[|at| + 1..] == name;
    assert Below(at, other)[|at| + 1..] == other;
    assert Below(at, name)[..|at|] == at;
  }

  lemma FlattenStarts(view: View, at: Bytes)
    ensures |Flatten(view, at)| >= 3 && Flatten(view, at)[0] == Fact(Path, at)
  {
  }

  /** After the last fact of one child comes a sibling or whatever follows the directory. */
  lemma ChildFollowed(children: seq<Child>, at: Bytes, name: Bytes, rest: seq<Fact>)
    requires NamedChildren(children) && Follows(rest, at)
    ensures Follows(FlattenChildren(children, at) + rest, Below(at, name))
  {
    if children == [] {
      assert FlattenChildren(children, at) + rest == rest;
      if rest != [] && rest[0].tag == Path && Under(rest[0].value, Below(at, name)) {
        UnderChild(rest[0].value, at, name);
      }
    } else {
      FlattenStarts(children[0].view, Below(at, children[0].name));
      SiblingsApart(at, name, children[0].name);
    }
  }

  lemma CutTail<T>(a: seq<T>, b: seq<T>, x: seq<T>, y: seq<T>, n: nat)
    requires a + x == b + y && n <= |a| && n <= |b|
    ensures a[..n] == b[..n] && a[n..] + x == b[n..] + y
  {
    assert a[..n] == (a + x)[..n] && b[..n] == (b + y)[..n];
    assert a[n..] + x == (a + x)[n..] && b[n..] + y == (b + y)[n..];
  }

  /** What follows the five facts about a path in its record; nothing for a path that is gone. */
  function Body(view: View, at: Bytes): seq<Fact> {
    match view
    case Gone(_) => []
    case Plain(_, content) => [ContentFact(content)]
    case Tree(_, listing) => FlattenListing(listing, at)
    case Other(_, _) => []
    case Sealed(_, error) => [Fact(LinkError, error)]
    case Dangling(_, text, error) => [Fact(LinkText, text), Fact(LinkError, error)]
    case FileLink(_, text, content) => [Fact(LinkText, text), ContentFact(content)]
    case TreeLink(_, text, listing) => [Fact(LinkText, text)] + FlattenListing(listing, at)
  }

  function FormatOf(view: View): Bytes {
    match view
    case Gone(_) => TypeText(MISSING)
    case Plain(_, _) => TypeText(REGULAR)
    case Tree(_, _) => TypeText(DIRECTORY)
    case Other(_, format) => format
    case _ => TypeText(LINK)
  }

  lemma FlattenParts(view: View, at: Bytes)
    requires !view.Gone?
    ensures Flatten(view, at) == InfoFacts(at, FormatOf(view), view.info) + Body(view, at)
  {
    if view.TreeLink? {
      assert InfoFacts(at, TypeText(LINK), view.info) + [Fact(LinkText, view.text)] + FlattenListing(view.listing, at)
             == InfoFacts(at, TypeText(LINK), view.info) + ([Fact(LinkText, view.text)] + FlattenListing(view.listing, at));
    }
  }

  lemma FormatsApart()
    ensures TypeText(DIRECTORY) != TypeText(REGULAR) && TypeText(DIRECTORY) != TypeText(LINK)
    ensures TypeText(REGULAR) != TypeText(LINK)
    ensures TypeText(MISSING) != TypeText(DIRECTORY) && TypeText(MISSING) != TypeText(REGULAR) && TypeText(MISSING) != TypeText(LINK)
  {
    assert TypeText(DIRECTORY)[0] != TypeText(REGULAR)[0] && TypeText(DIRECTORY)[0] != TypeText(LINK)[0];
    assert TypeText(REGULAR)[0] != TypeText(LINK)[0];
    assert |TypeText(MISSING)| == 7 && |TypeText(DIRECTORY)| == |TypeText(REGULAR)| == |TypeText(LINK)| == 5;
  }

  /** The two records start alike: same label, format and info. */
  lemma SameHead(v: View, w: View, at: Bytes, r: seq<Fact>, q: seq<Fact>)
    requires Flatten(v, at) + r == Flatten(w, at) + q
    ensures FormatOf(v) == FormatOf(w) && v.Gone? == w.Gone?
    ensures !v.Gone? ==> v.info == w.info && Body(v, at) + r == Body(w, at) + q
    ensures v.Gone? ==> v == w && r == q
  {
    hide FlattenListing, TypeText, Body;
    FormatsApart();
    FormatSecond(v, at);
    FormatSecond(w, at);
    assert (Flatten(v, at) + r)[1] == (Flatten(w, at) + q)[1];
    if !v.Gone? && !w.Gone? {
      FlattenParts(v, at);
      FlattenParts(w, at);
      CutTail(Flatten(v, at), Flatten(w, at), r, q, 5);
      HeadsAgree(v, w, at);
    } else if v.Gone? && w.Gone? {
      CutTail(Flatten(v, at), Flatten(w, at), r, q, 3);
      assert Flatten(v, at)[..3] == Flatten(v, at) && Flatten(w, at)[..3] == Flatten(w, at);
      assert Flatten(v, at)[2] == Fact(StatError, v.error) && Flatten(w, at)[2] == Fact(StatError, w.error);
      assert Flatten(v, at)[3..] + r == r && Flatten(w, at)[3..] + q == q;
    }
  }

  lemma FormatSecond(v: View, at: Bytes)
    ensures |Flatten(v, at)| >= 3 && Flatten(v, at)[1] == Fact(Type, FormatOf(v))
    ensures FormatOf(v) == TypeText(MISSING) <==> v.Gone?
  {
    hide FlattenListing, TypeText;
    FormatsApart();
  }

  lemma HeadsAgree(v: View, w: View, at: Bytes)
    requires !v.Gone? && !w.Gone?
    ensures |Flatten(v, at)| >= 5 && |Flatten(w, at)| >= 5
    ensures Flatten(v, at)[..5] == Flatten(w, at)[..5] ==> v.info == w.info
    ensures Flatten(v, at)[5..] == Body(v, at) && Flatten(w, at)[5..] == Body(w, at)
  {
    hide FlattenListing, TypeText, Body;
    FlattenParts(v, at);
    FlattenParts(w, at);
    var a, b := Flatten(v, at), Flatten(w, at);
    assert a[2] == Fact(Mode, v.info.mode) && a[3] == Fact(Size, v.info.size) && a[4] == Fact(MtimeNs, v.info.mtime);
    assert b[2] == Fact(Mode, w.info.mode) && b[3] == Fact(Size, w.info.size) && b[4] == Fact(MtimeNs, w.info.mtime);
    if a[..5] == b[..5] {
      assert a[..5][2] == b[..5][2] && a[..5][3] == b[..5][3] && a[..5][4] == b[..5][4];
    }
  }

  /** A record can be read back: the facts written for a view, followed by anything that may follow
      them, come from no other view. */
  lemma {:induction false} FlattenUnique(v: View, w: View, at: Bytes, r: seq<Fact>, q: seq<Fact>)
    requires Flatten(v, at) + r == Flatten(w, at) + q
    requires Follows(r, at) && Follows(q, at) && Named(v) && Named(w)
    ensures v == w && r == q
    decreases v, 2
  {
    hide Flatten, TypeText, Under;
    FormatsApart();
    SameHead(v, w, at, r, q);
    if v.Gone? {
    } else if FormatOf(v) == TypeText(DIRECTORY) {
      ListingUnique(v.listing, w.listing, at, r, q);
    } else if FormatOf(v) == TypeText(LINK) {
      LinkUnique(v, w, at, r, q);
    } else if FormatOf(v) == TypeText(REGULAR) {
      OneFact(ContentFact(v.content), ContentFact(w.content), r, q);
    } else {
      assert Body(v, at) + r == r && Body(w, at) + q == q;
    }
  }

  lemma OneFact(x: Fact, y: Fact, r: seq<Fact>, q: seq<Fact>)
    requires [x] + r == [y] + q
    ensures x == y && r == q
  {
    CutTail([x], [y], r, q, 1);
    assert [x][..1] == [x] && [y][..1] == [y] && [x][1..] + r == r && [y][1..] + q == q;
  }

  predicate IsLink(v: View) {
    v.Sealed? || v.Dangling? || v.FileLink? || v.TreeLink?
  }

  /** The body of a readable link after its text. */
  function LinkBody(v: View, at: Bytes): seq<Fact>
    requires IsLink(v) && !v.Sealed?
  {
    match v
    case Dangling(_, _, error) => [Fact(LinkError, error)]
    case FileLink(_, _, content) => [ContentFact(content)]
    case TreeLink(_, _, listing) => FlattenListing(listing, at)
  }

  lemma LinkBodySplits(v: View, at: Bytes)
    requires IsLink(v) && !v.Sealed?
    ensures Body(v, at) == [Fact(LinkText, v.text)] + LinkBody(v, at)
  {
  }

  lemma {:induction false} LinkUnique(v: View, w: View, at: Bytes, r: seq<Fact>, q: seq<Fact>)
    requires IsLink(v) && IsLink(w) && v.info == w.info
    requires Body(v, at) + r == Body(w, at) + q
    requires Follows(r, at) && Follows(q, at) && Named(v) && Named(w)
    ensures v == w && r == q
    decreases v, 1
  {
    hide Under, FlattenListing, Body, Follows, Named;
    LinkBodyStarts(v, at);
    LinkBodyStarts(w, at);
    assert (Body(v, at) + r)[0] == (Body(w, at) + q)[0];
    if v.Sealed? {
      SealedBody(v, at);
      SealedBody(w, at);
      OneFact(Fact(LinkError, v.error), Fact(LinkError, w.error), r, q);
    } else {
      LinkBodySplits(v, at);
      LinkBodySplits(w, at);
      var x, y := LinkBody(v, at), LinkBody(w, at);
      assert Body(v, at) + r == [Fact(LinkText, v.text)] + (x + r);
      assert Body(w, at) + q == [Fact(LinkText, w.text)] + (y + q);
      OneFact(Fact(LinkText, v.text), Fact(LinkText, w.text), x + r, y + q);
      LinkTargetUnique(v, w, at, r, q);
    }
  }

  lemma LinkBodyStarts(v: View, at: Bytes)
    requires IsLink(v)
    ensures Body(v, at) != [] && Body(v, at)[0].tag == if v.Sealed? then LinkError else LinkText
  {
    hide FlattenListing;
  }

  lemma SealedBody(v: View, at: Bytes)
    requires v.Sealed?
    ensures Body(v, at) == [Fact(LinkError, v.error)]
  {
  }

  lemma {:induction false} LinkTargetUnique(v: View, w: View, at: Bytes, r: seq<Fact>, q: seq<Fact>)
    requires IsLink(v) && IsLink(w) && !v.Sealed? && !w.Sealed? && v.info == w.info && v.text == w.text
    requires LinkBody(v, at) + r == LinkBody(w, at) + q
    requires Follows(r, at) && Follows(q, at) && Named(v) && Named(w)
    ensures v == w && r == q
    decreases v, 0
  {
    hide Under;
    if v.TreeLink? && w.TreeLink? {
      ListingUnique(v.listing, w.listing, at, r, q);
    } else if v.TreeLink? {
      assert (LinkBody(w, at) + q)[0] == LinkBody(w, at)[0];
      ListingStarts(v.listing, at, r);
    } else if w.TreeLink? {
      assert (LinkBody(v, at) + r)[0] == LinkBody(v, at)[0];
      ListingStarts(w.listing, at, q);
    } else {
      OneFact(LinkBody(v, at)[0], LinkBody(w, at)[0], r, q);
    }
  }

  /** What can come first after a listing starts. */
  lemma ListingStarts(listing: Listing, at: Bytes, r: seq<Fact>)
    requires Follows(r, at)
    ensures var all := FlattenListing(listing, at) + r;
            all == [] || all[0].tag in {Path, ArgumentIndex, DirectoryError, DirectoryCycle, ScanError}
    ensures listing.Children? ==>
              var all := FlattenListing(listing, at) + r; all == [] || all[0].tag in {Path, ArgumentIndex}
  {
    hide Under, Flatten;
    if listing.Children? && listing.children != [] {
      FlattenStarts(listing.children[0].view, Below(at, listing.children[0].name));
    }
  }

  lemma {:induction false} ListingUnique(l: Listing, k: Listing, at: Bytes, r: seq<Fact>, q: seq<Fact>)
    requires FlattenListing(l, at) + r == FlattenListing(k, at) + q
    requires Follows(r, at) && Follows(q, at) && NamedListing(l) && NamedListing(k)
    ensures l == k && r == q
    decreases l, 1
  {
    hide Under, FlattenChildren, NamedChildren;
    ListingStarts(l, at, r);
    ListingStarts(k, at, q);
    if l.Children? && k.Children? {
      ChildrenUnique(l.children, k.children, at, r, q);
    } else {
      assert (FlattenListing(l, at) + r)[0] == (FlattenListing(k, at) + q)[0];
      OneFact(FlattenListing(l, at)[0], FlattenListing(k, at)[0], r, q);
    }
  }

  lemma {:induction false} ChildrenUnique(cs: seq<Child>, ds: seq<Child>, at: Bytes, r: seq<Fact>, q: seq<Fact>)
    requires FlattenChildren(cs, at) + r == FlattenChildren(ds, at) + q
    requires Follows(r, at) && Follows(q, at) && NamedChildren(cs) && NamedChildren(ds)
    ensures cs == ds && r == q
    decreases cs, 0
  {
    hide Flatten, Named, Under, Below;
    if cs == [] && ds == [] {
      assert FlattenChildren(cs, at) + r == r && FlattenChildren(ds, at) + q == q;
    } else if cs == [] {
      assert FlattenChildren(cs, at) + r == r;
      NoChildren(ds, at, q);
    } else if ds == [] {
      assert FlattenChildren(ds, at) + q == q;
      NoChildren(cs, at, r);
    } else {
      var c, d := cs[0], ds[0];
      var x, y := FlattenChildren(cs[1..], at) + r, FlattenChildren(ds[1..], at) + q;
      assert FlattenChildren(cs, at) + r == Flatten(c.view, Below(at, c.name)) + x;
      assert FlattenChildren(ds, at) + q == Flatten(d.view, Below(at, d.name)) + y;
      FlattenStarts(c.view, Below(at, c.name));
      FlattenStarts(d.view, Below(at, d.name));
      assert (Flatten(c.view, Below(at, c.name)) + x)[0] == (Flatten(d.view, Below(at, d.name)) + y)[0];
      BelowIsInjective(at, c.name, d.name);
      ChildFollowed(cs[1..], at, c.name, r);
      ChildFollowed(ds[1..], at, c.name, q);
      FlattenUnique(c.view, d.view, Below(at, c.name), x, y);
      ChildrenUnique(cs[1..], ds[1..], at, r, q);
      assert cs == [c] + cs[1..] && ds == [d] + ds[1..];
    }
  }

  /** The record of a child cannot be taken for what follows its directory. */
  lemma NoChildren(cs: seq<Child>, at: Bytes, r: seq<Fact>)
    requires cs != []
    ensures !Follows(FlattenChildren(cs, at) + r, at)
  {
    hide Under;
    FlattenStarts(cs[0].view, Below(at, cs[0].name));
    BelowIsInjective(at, cs[0].name, cs[0].name);
    assert (FlattenChildren(cs, at) + r)[0] == Flatten(cs[0].view, Below(at, cs[0].name))[0];
  }

  // ------------------------------------------------------------ as a byte stream

  function Ascii(text: string): Bytes {
    seq(|text|, i requires 0 <= i < |text| => if text[i] < 256 as char then text[i] as int else 0)
  }

  function PartOf(fact: Fact): Part {
    Part(TagBytes(fact.tag), fact.value)
  }

  function Parts(facts: seq<Fact>): (parts: seq<Part>)
    ensures |parts| == |facts| && forall i :: 0 <= i < |facts| ==> parts[i] == PartOf(facts[i])
  {
    seq(|facts|, i requires 0 <= i < |facts| => PartOf(facts[i]))
  }

  function Stream(facts: seq<Fact>): Bytes {
    Manifest(Parts(facts))
  }

  /** What tells the tag names apart: the length and three characters. */
  function TagCode(tag: Tag): (int, int, int, int) {
    var t := TagBytes(tag);
    if |t| < 4 then (0, 0, 0, 0) else (|t|, t[0], t[1], t[|t| - 3])
  }

  function TagName(tag: Tag): string {
    match tag
    case Path => "path"
    case Type => "type"
    case Mode => "mode"
    case Size => "size"
    case MtimeNs => "mtime-ns"
    case LinkText => "link"
    case LinkError => "link-error"
    case ContentHash => "content"
    case ContentError => "content-error"
    case DirectoryError => "directory-error"
    case DirectoryCycle => "directory-cycle"
    case ScanError => "scan-error"
    case StatError => "stat-error"
    case ArgumentIndex => "argument-index"
    case Argument => "argument"
  }

  /** The labels are these names in ASCII. */
  lemma TagsAreNames(tag: Tag)
    ensures TagBytes(tag) == Ascii(TagName(tag))
  {
    if |TagBytes(tag)| <= 8 {
      ShortTags(tag);
    } else if |TagBytes(tag)| <= 13 {
      LongTags(tag);
    } else {
      LongestTags(tag);
    }
  }

  lemma ShortTags(tag: Tag)
    requires |TagBytes(tag)| <= 8
    ensures TagBytes(tag) == Ascii(TagName(tag))
  {
  }

  lemma LongTags(tag: Tag)
    requires 8 < |TagBytes(tag)| <= 13
    ensures TagBytes(tag) == Ascii(TagName(tag))
  {
  }

  lemma LongestTags(tag: Tag)
    requires 13 < |TagBytes(tag)|
    ensures TagBytes(tag) == Ascii(TagName(tag))
  {
  }

  lemma TagHasNoZero(tag: Tag)
    ensures 0 !in TagBytes(tag)
  {
  }

  lemma TagCodes(tag: Tag)
    ensures TagCode(tag) == match tag
            case Path => (4, 112, 97, 97)
            case Type => (4, 116, 121, 121)
            case Mode => (4, 109, 111, 111)
            case Size => (4, 115, 105, 105)
            case MtimeNs => (8, 109, 116, 45)
            case LinkText => (4, 108, 105, 105)
            case LinkError => (10, 108, 105, 114)
            case ContentHash => (7, 99, 111, 101)
            case ContentError => (13, 99, 111, 114)
            case DirectoryError => (15, 100, 105, 114)
            case DirectoryCycle => (15, 100, 105, 99)
            case ScanError => (10, 115, 99, 114)
            case StatError => (10, 115, 116, 114)
            case ArgumentIndex => (14, 97, 114, 100)
            case Argument => (8, 97, 114, 101)
  {
  }

  lemma TagsApart(a: Tag, b: Tag)
    ensures TagBytes(a) == TagBytes(b) <==> a == b
  {
    hide TagBytes;
    TagCodes(a);
    TagCodes(b);
  }

  /** Values short enough for the manifest to be read back. */
  ghost predicate Short(facts: seq<Fact>) {
    forall i :: 0 <= i < |facts| ==> |facts[i].value| < 0x100_0000_0000_0000
  }

  lemma PartsReadable(facts: seq<Fact>)
    requires Short(facts)
    ensures forall i :: 0 <= i < |facts| ==> Readable(Parts(facts)[i])
  {
    hide TagBytes;
    forall i | 0 <= i < |facts| ensures Readable(Parts(facts)[i]) {
      TagHasNoZero(facts[i].tag);
    }
  }

  lemma PartsInjective(a: seq<Fact>, b: seq<Fact>)
    requires Parts(a) == Parts(b)
    ensures a == b
  {
    hide TagBytes;
    forall i | 0 <= i < |a| ensures a[i] == b[i] {
      assert Parts(a)[i] == Parts(b)[i];
      TagsApart(a[i].tag, b[i].tag);
    }
  }

  /** The bytes fed to the hash determine the facts. */
  lemma StreamIsInjective(a: seq<Fact>, b: seq<Fact>)
    requires Short(a) && Short(b)
    ensures Stream(a) == Stream(b) <==> a == b
  {
    hide Manifest, Parts, Short, Readable;
    PartsReadable(a);
    PartsReadable(b);
    ManifestIsInjective(Parts(a), Parts(b));
    if Parts(a) == Parts(b) {
      PartsInjective(a, b);
    }
  }

  lemma StreamConcat(a: seq<Fact>, b: seq<Fact>)
    ensures Stream(a + b) == Stream(a) + Stream(b)
  {
    hide Manifest, PartOf;
    assert Parts(a + b) == Parts(a) + Parts(b);
    ManifestConcat(Parts(a), Parts(b));
  }

  // -------------------------------------------------------- names on the disk

  /** No entry of any directory has a slash in its name. */
  ghost predicate SlashFree(fs: FileSystem) {
    forall id, i :: id in fs.listings && 0 <= i < |fs.listings[id]| ==> 47 !in fs.listings[id][i].name
  }

  lemma {:induction false} ViewsAreNamed(fs: FileSystem, node: Node, active: set<Identity>)
    requires SlashFree(fs)
    ensures Named(ViewOf(fs, node, active))
    decreases fs.listings.Keys - active, 1, 0
  {
    if node.Directory? || node.LinkToDirectory? {
      ListingsAreNamed(fs, node.folder, active);
    }
  }

  lemma {:induction false} ListingsAreNamed(fs: FileSystem, folder: Folder, active: set<Identity>)
    requires SlashFree(fs)
    ensures NamedListing(ListingOf(fs, folder, active))
    decreases fs.listings.Keys - active, 0, 0
  {
    if folder.Found? && folder.id !in active && folder.id in fs.listings {
      assert folder.id in fs.listings.Keys - active;
      var entries := InOrder(fs.listings[folder.id]);
      SortSameElements(ByText(NameText()), fs.listings[folder.id]);
      forall i | 0 <= i < |entries| ensures 47 !in entries[i].name {
        assert entries[i] in fs.listings[folder.id];
      }
      ChildrenAreNamed(fs, entries, active + {folder.id});
    }
  }

  lemma {:induction false} ChildrenAreNamed(fs: FileSystem, entries: seq<Entry>, active: set<Identity>)
    requires SlashFree(fs) && forall i :: 0 <= i < |entries| ==> 47 !in entries[i].name
    ensures NamedChildren(ChildrenOf(fs, entries, active))
    decreases fs.listings.Keys - active, 2, |entries|
  {
    if entries != [] {
      ViewsAreNamed(fs, entries[0].node, active);
      ChildrenAreNamed(fs, entries[1..], active);
    }
  }

  // ----------------------------------------------------------- whole runs

  /** One command-line input: the argument as given and what its path leads to. */
  datatype Input = Input(argument: Bytes, node: Node)

  /** A decimal numeral. */
  function Decimal(n: nat): Bytes {
    if n < 10 then [48 + n] else Decimal(n / 10) + [48 + n % 10]
  }

  /** The formats are S_IFDIR, S_IFREG and S_IFLNK in decimal. */
  lemma FormatsAreDecimal()
    ensures TypeText(DIRECTORY) == Decimal(16384) && TypeText(REGULAR) == Decimal(32768) && TypeText(LINK) == Decimal(40960)
    ensures TypeText(MISSING) == Ascii("missing")
  {
    assert Decimal(163) == [49, 54, 51] && Decimal(327) == [51, 50, 55] && Decimal(409) == [52, 48, 57];
  }

  function DecimalValue(digits: Bytes): int {
    if digits == [] then 0 else 10 * DecimalValue(digits[..|digits| - 1]) + digits[|digits| - 1] - 48
  }

  /** A numeral reads back as its number. */
  lemma {:induction false} DecimalReadsBack(n: nat)
    ensures DecimalValue(Decimal(n)) == n
    ensures forall i :: 0 <= i < |Decimal(n)| ==> 48 <= Decimal(n)[i] <= 57
  {
    if n >= 10 {
      DecimalReadsBack(n / 10);
      assert Decimal(n)[..|Decimal(n)| - 1] == Decimal(n / 10);
    } else {
      assert Decimal(n)[..0] == [];
    }
  }

  function InputLabel(index: nat): Bytes {
    Ascii("input-") + Decimal(index)
  }

  function InputFacts(fs: FileSystem, input: Input, index: nat): seq<Fact> {
    [Fact(ArgumentIndex, Decimal(index)), Fact(Argument, input.argument)]
    + Flatten(ViewOf(fs, input.node, {}), InputLabel(index))
  }

  /** The facts about the inputs from position `index` on. */
  function RunFacts(fs: FileSystem, inputs: seq<Input>, index: nat): seq<Fact> {
    if inputs == [] then [] else InputFacts(fs, inputs[0], index) + RunFacts(fs, inputs[1..], index + 1)
  }

  /** Both runs name the same arguments and find the same there. */
  ghost predicate SameObservations(fs: FileSystem, inputs: seq<Input>, fs': FileSystem, inputs': seq<Input>) {
    && |inputs| == |inputs'|
    && forall i :: 0 <= i < |inputs| ==>
         && inputs[i].argument == inputs'[i].argument
         && ViewOf(fs, inputs[i].node, {}) == ViewOf(fs', inputs'[i].node, {})
  }

  lemma RunFollows(fs: FileSystem, inputs: seq<Input>, index: nat, at: Bytes)
    ensures Follows(RunFacts(fs, inputs, index), at)
  {
    hide Flatten, Under, ViewOf;
    if inputs != [] {
      assert RunFacts(fs, inputs, index)[0] == InputFacts(fs, inputs[0], index)[0];
    }
  }

  lemma InputSplits(fs: FileSystem, input: Input, index: nat, rest: seq<Fact>)
    ensures InputFacts(fs, input, index) + rest
            == [Fact(ArgumentIndex, Decimal(index))]
               + ([Fact(Argument, input.argument)] + (Flatten(ViewOf(fs, input.node, {}), InputLabel(index)) + rest))
  {
    hide Flatten, ViewOf, InputLabel;
  }

  lemma {:induction false} RunFactsUnique(fs: FileSystem, inputs: seq<Input>, fs': FileSystem, inputs': seq<Input>, index: nat)
    requires SlashFree(fs) && SlashFree(fs')
    requires RunFacts(fs, inputs, index) == RunFacts(fs', inputs', index)
    ensures SameObservations(fs, inputs, fs', inputs')
    decreases |inputs|
  {
    hide Flatten, ViewOf, InputLabel, Follows, Named, InputFacts, SlashFree;
    if inputs != [] && inputs' != [] {
      var x, y := inputs[0], inputs'[0];
      var v, w := ViewOf(fs, x.node, {}), ViewOf(fs', y.node, {});
      var at := InputLabel(index);
      var r, q := RunFacts(fs, inputs[1..], index + 1), RunFacts(fs', inputs'[1..], index + 1);
      InputSplits(fs, x, index, r);
      InputSplits(fs', y, index, q);
      OneFact(Fact(ArgumentIndex, Decimal(index)), Fact(ArgumentIndex, Decimal(index)),
              [Fact(Argument, x.argument)] + (Flatten(v, at) + r), [Fact(Argument, y.argument)] + (Flatten(w, at) + q));
      OneFact(Fact(Argument, x.argument), Fact(Argument, y.argument), Flatten(v, at) + r, Flatten(w, at) + q);
      ViewsAreNamed(fs, x.node, {});
      ViewsAreNamed(fs', y.node, {});
      RunFollows(fs, inputs[1..], index + 1, at);
      RunFollows(fs', inputs'[1..], index + 1, at);
      FlattenUnique(v, w, at, r, q);
      RunFactsUnique(fs, inputs[1..], fs', inputs'[1..], index + 1);
      SameTails(fs, inputs, fs', inputs');
    } else if inputs != [] {
      InputSplits(fs, inputs[0], index, RunFacts(fs, inputs[1..], index + 1));
    } else if inputs' != [] {
      InputSplits(fs', inputs'[0], index, RunFacts(fs', inputs'[1..], index + 1));
    }
  }

  lemma SameTails(fs: FileSystem, inputs: seq<Input>, fs': FileSystem, inputs': seq<Input>)
    requires inputs != [] && inputs' != []
    requires inputs[0].argument == inputs'[0].argument
    requires ViewOf(fs, inputs[0].node, {}) == ViewOf(fs', inputs'[0].node, {})
    requires SameObservations(fs, inputs[1..], fs', inputs'[1..])
    ensures SameObservations(fs, inputs, fs', inputs')
  {
    hide ViewOf;
    forall i | 0 <= i < |inputs|
      ensures inputs[i].argument == inputs'[i].argument
      ensures ViewOf(fs, inputs[i].node, {}) == ViewOf(fs', inputs'[i].node, {})
    {
      if i > 0 {
        assert inputs[1..][i - 1] == inputs[i] && inputs'[1..][i - 1] == inputs'[i];
      }
    }
  }

  lemma {:induction false} SameObservationsSameFacts(fs: FileSystem, inputs: seq<Input>, fs': FileSystem, inputs': seq<Input>, index: nat)
    requires SameObservations(fs, inputs, fs', inputs')
    ensures RunFacts(fs, inputs, index) == RunFacts(fs', inputs', index)
    decreases |inputs|
  {
    hide Flatten, ViewOf, InputLabel;
    if inputs != [] {
      SameObservationsSameFacts(fs, inputs[1..], fs', inputs'[1..], index + 1);
    }
  }

  /** The runs name the same arguments in the same order, for paths that look alike. */
  ghost predicate RunsLookAlike(fs: FileSystem, inputs: seq<Input>, fs': FileSystem, inputs': seq<Input>) {
    && |inputs| == |inputs'|
    && forall i :: 0 <= i < |inputs| ==>
         && inputs[i].argument == inputs'[i].argument
         && LooksAlike(fs, inputs[i].node, {}, fs', inputs'[i].node, {})
  }

  lemma ObservationsMeanLooks(fs: FileSystem, inputs: seq<Input>, fs': FileSystem, inputs': seq<Input>)
    ensures SameObservations(fs, inputs, fs', inputs') <==> RunsLookAlike(fs, inputs, fs', inputs')
  {
    hide ViewOf, LooksAlike;
    if |inputs| == |inputs'| {
      forall i | 0 <= i < |inputs|
        ensures ViewOf(fs, inputs[i].node, {}) == ViewOf(fs', inputs'[i].node, {})
                <==> LooksAlike(fs, inputs[i].node, {}, fs', inputs'[i].node, {})
      {
        ViewsMeanLooks(fs, inputs[i].node, {}, fs', inputs'[i].node, {});
      }
    }
  }

  /** The fingerprint stream is faithful: two runs feed the hash the same bytes exactly when they
      name the same arguments in the same order and what they lead to looks alike. */
  lemma FingerprintIsFaithful(fs: FileSystem, inputs: seq<Input>, fs': FileSystem, inputs': seq<Input>)
    requires SlashFree(fs) && SlashFree(fs')
    requires Short(RunFacts(fs, inputs, 0)) && Short(RunFacts(fs', inputs', 0))
    ensures Stream(RunFacts(fs, inputs, 0)) == Stream(RunFacts(fs', inputs', 0))
            <==> RunsLookAlike(fs, inputs, fs', inputs')
  {
    hide Stream, RunFacts, SameObservations, RunsLookAlike, Short, SlashFree;
    StreamIsInjective(RunFacts(fs, inputs, 0), RunFacts(fs', inputs', 0));
    if RunFacts(fs, inputs, 0) == RunFacts(fs', inputs', 0) {
      RunFactsUnique(fs, inputs, fs', inputs', 0);
    }
    if SameObservations(fs, inputs, fs', inputs') {
      SameObservationsSameFacts(fs, inputs, fs', inputs', 0);
    }
    ObservationsMeanLooks(fs, inputs, fs', inputs');
  }

  /** The bytes that record a path. */
  function RecordOf(fs: FileSystem, node: Node, active: set<Identity>, at: Bytes): Bytes {
    Stream(Flatten(ViewOf(fs, node, active), at))
  }

  /** No field of the record is too long for its length to be told from its label. */
  ghost predicate ShortRecord(fs: FileSystem, node: Node, active: set<Identity>, at: Bytes) {
    Short(Flatten(ViewOf(fs, node, active), at))
  }

  /** Records under one label have the same bytes exactly when the paths look alike. */
  lemma RecordsTell(fs: FileSystem, x: Node, active: set<Identity>, fs': FileSystem, y: Node, active': set<Identity>, at: Bytes)
    requires SlashFree(fs) && SlashFree(fs') && ShortRecord(fs, x, active, at) && ShortRecord(fs', y, active', at)
    ensures RecordOf(fs, x, active, at) == RecordOf(fs', y, active', at) <==> LooksAlike(fs, x, active, fs', y, active')
  {
    hide Stream, Flatten, ViewOf, Short, SlashFree, Named, LooksAlike;
    var v, w := ViewOf(fs, x, active), ViewOf(fs', y, active');
    StreamIsInjective(Flatten(v, at), Flatten(w, at));
    ViewsAreNamed(fs, x, active);
    ViewsAreNamed(fs', y, active');
    ViewsMeanLooks(fs, x, active, fs', y, active');
    if Flatten(v, at) == Flatten(w, at) {
      assert Flatten(v, at) + [] == Flatten(w, at) + [];
      FlattenUnique(v, w, at, [], []);
    }
  }

  /** The record of a link to something special has the bytes of the records of links to empty
      directories that are not being walked already, and of no other path. */
  lemma LinkTargetsConflated(fs: FileSystem, node: Node, info: Info, text: Bytes, active: set<Identity>, at: Bytes)
    requires SlashFree(fs) && ShortRecord(fs, node, active, at) && ShortRecord(fs, LinkToSpecial(info, text), active, at)
    ensures RecordOf(fs, node, active, at) == RecordOf(fs, LinkToSpecial(info, text), active, at)
            <==> node == LinkToSpecial(info, text) || EntersNothing(fs, node, info, text, active)
  {
    hide RecordOf, ShortRecord, FoldersAlike, SlashFree;
    RecordsTell(fs, node, active, fs, LinkToSpecial(info, text), active, at);
  }

  function Kind(node: Node): nat {
    match node
    case Absent(_) => 0
    case File(_, _) => 1
    case Directory(_, _) => 2
    case Special(_, _) => 3
    case LinkUnreadable(_, _) => 4
    case LinkBroken(_, _, _) => 5
    case LinkToFile(_, _, _) => 6
    case LinkToDirectory(_, _, _) => 7
    case LinkToSpecial(_, _) => 8
  }

  /** The bytes of a record tell what kind of path it was written for, but for these links: two paths
      of different kinds have the same bytes under one label if and only if one links to something
      special and the other, with the same facts and text, to an empty directory that the walk enters. */
  lemma KindsAreTold(fs: FileSystem, x: Node, y: Node, active: set<Identity>, at: Bytes)
    requires Kind(x) < Kind(y)
    requires SlashFree(fs) && ShortRecord(fs, x, active, at) && ShortRecord(fs, y, active, at)
    ensures RecordOf(fs, x, active, at) == RecordOf(fs, y, active, at)
            <==> y.LinkToSpecial? && EntersNothing(fs, x, y.info, y.text, active)
  {
    hide RecordOf, ShortRecord, FoldersAlike, SlashFree;
    RecordsTell(fs, x, active, fs, y, active, at);
  }

  // -------------------------------------------------------- order of listing

  ghost predicate DistinctNames(entries: seq<Entry>) {
    forall i, j :: 0 <= i < j < |entries| ==> entries[i].name != entries[j].name
  }

  /** The same directories, their entries listed in whatever order. */
  ghost predicate Relisted(fs: FileSystem, fs': FileSystem) {
    && fs.listings.Keys == fs'.listings.Keys && fs.scanError == fs'.scanError
    && forall id :: id in fs.listings ==>
         DistinctNames(fs.listings[id]) && multiset(fs.listings[id]) == multiset(fs'.listings[id])
  }

  lemma NamesSeparate(entries: seq<Entry>)
    requires DistinctNames(entries)
    ensures Separates(ByText(NameText()), entries)
  {
    var leq := ByText(NameText());
    forall i, j | 0 <= i < |entries| && 0 <= j < |entries| && leq(entries[i], entries[j]) && leq(entries[j], entries[i])
      ensures entries[i] == entries[j]
    {
      TextLeqTotal(TextOf(entries[i].name), TextOf(entries[j].name));
      TextIsInjective(entries[i].name, entries[j].name);
    }
  }

  lemma TextIsInjective(a: Bytes, b: Bytes)
    requires TextOf(a) == TextOf(b)
    ensures a == b
  {
    assert |a| == |TextOf(a)| == |TextOf(b)| == |b|;
    forall i | 0 <= i < |a| ensures a[i] == b[i] {
      assert TextOf(a)[i] == TextOf(b)[i];
    }
  }

  lemma InOrderRelisted(fs: FileSystem, fs': FileSystem, id: Identity)
    requires Relisted(fs, fs') && id in fs.listings
    ensures InOrder(fs.listings[id]) == InOrder(fs'.listings[id])
  {
    ByTextIsTotalPreorder(NameText());
    NamesSeparate(fs.listings[id]);
    SortForgetsOrder(ByText(NameText()), fs.listings[id], fs'.listings[id]);
  }

  /** A directory is walked through all its entries, ascending by the bytes of their names. */
  lemma EntriesInOrder(entries: seq<Entry>)
    ensures multiset(InOrder(entries)) == multiset(entries)
    ensures forall i, j :: 0 <= i < j < |InOrder(entries)| ==>
              TextLeq(TextOf(InOrder(entries)[i].name), TextOf(InOrder(entries)[j].name))
  {
    SortKeepsElements(ByText(NameText()), entries);
    ByTextIsTotalPreorder(NameText());
    SortSorts(ByText(NameText()), entries);
    var sorted := InOrder(entries);
    forall i, j | 0 <= i < j < |sorted| ensures TextLeq(TextOf(sorted[i].name), TextOf(sorted[j].name)) {
      assert ByText(NameText())(sorted[i], sorted[j]);
    }
  }

  /** The order in which the operating system lists a directory does not show. */
  lemma {:induction false} ListingOrderIsIgnored(fs: FileSystem, fs': FileSystem, node: Node, active: set<Identity>)
    requires Relisted(fs, fs')
    ensures ViewOf(fs, node, active) == ViewOf(fs', node, active)
    decreases fs.listings.Keys - active, 1, 0
  {
    if node.Directory? || node.LinkToDirectory? {
      ListingRelisted(fs, fs', node.folder, active);
    }
  }

  lemma {:induction false} ListingRelisted(fs: FileSystem, fs': FileSystem, folder: Folder, active: set<Identity>)
    requires Relisted(fs, fs')
    ensures ListingOf(fs, folder, active) == ListingOf(fs', folder, active)
    decreases fs.listings.Keys - active, 0, 0
  {
    hide InOrder;
    if folder.Found? && folder.id !in active && folder.id in fs.listings {
      assert folder.id in fs.listings.Keys - active;
      InOrderRelisted(fs, fs', folder.id);
      ChildrenRelisted(fs, fs', InOrder(fs.listings[folder.id]), active + {folder.id});
    }
  }

  lemma {:induction false} ChildrenRelisted(fs: FileSystem, fs': FileSystem, entries: seq<Entry>, active: set<Identity>)
    requires Relisted(fs, fs')
    ensures ChildrenOf(fs, entries, active) == ChildrenOf(fs', entries, active)
    decreases fs.listings.Keys - active, 2, |entries|
  {
    if entries != [] {
      ListingOrderIsIgnored(fs, fs', entries[0].node, active);
      ChildrenRelisted(fs, fs', entries[1..], active);
    }
  }

  // ---------------------------------------------------------------- the walk

  /** The directories being walked, shared by all calls of one walk. */
  class ActiveDirectories {
    var ids: set<Identity>

    constructor ()
      ensures ids == {}
    {
      ids := {};
    }
  }

  method Write(hasher: Digest, tag: Tag, value: Bytes)
    modifies hasher
    ensures hasher.stream == old(hasher.stream) + Stream([Fact(tag, value)])
  {
    ManifestPart(hasher, TagBytes(tag), value);
    OneFactStream(Fact(tag, value));
  }

  lemma OneFactStream(fact: Fact)
    ensures Stream([fact]) == EncodePart(PartOf(fact))
  {
    hide PartOf, EncodePart;
    assert Parts([fact]) == [PartOf(fact)];
    assert [PartOf(fact)][1..] == [];
    assert Manifest([PartOf(fact)]) == EncodePart(PartOf(fact)) + [];
  }

  method ManifestFile(hasher: Digest, content: Content)
    modifies hasher
    ensures hasher.stream == old(hasher.stream) + Stream([ContentFact(content)])
  {
    match content
    case Hashed(digest) => Write(hasher, ContentHash, digest);
    case Unread(error) => Write(hasher, ContentError, error);
  }

  /** Walks a directory. The shared set of active directories is as it was when the walk returns. */
  method ManifestDirectory(hasher: Digest, fs: FileSystem, folder: Folder, at: Bytes, active: ActiveDirectories)
    modifies hasher, active
    ensures active.ids == old(active.ids)
    ensures hasher.stream == old(hasher.stream) + Stream(FlattenListing(ListingOf(fs, folder, old(active.ids)), at))
    decreases fs.listings.Keys - active.ids, 0, 0
  {
    hide Stream, InOrder;
    match folder
    case Lost(error) =>
      Write(hasher, DirectoryError, error);
    case Found(id) =>
      if id in active.ids {
        Write(hasher, DirectoryCycle, []);
        return;
      }
      ghost var before := active.ids;
      active.ids := active.ids + {id};
      if id !in fs.listings {
        Write(hasher, ScanError, fs.scanError(id));
      } else {
        assert id in fs.listings.Keys - before;
        ManifestChildren(hasher, fs, InOrder(fs.listings[id]), at, active);
      }
      active.ids := active.ids - {id};
  }

  method ManifestChildren(hasher: Digest, fs: FileSystem, entries: seq<Entry>, at: Bytes, active: ActiveDirectories)
    modifies hasher, active
    ensures active.ids == old(active.ids)
    ensures hasher.stream == old(hasher.stream) + Stream(FlattenChildren(ChildrenOf(fs, entries, old(active.ids)), at))
    decreases fs.listings.Keys - active.ids, 3, 0
  {
    hide Stream, Flatten, ViewOf;
    ghost var ids, start := active.ids, hasher.stream;
    ghost var done: seq<Fact> := [];
    ghost var all := FlattenChildren(ChildrenOf(fs, entries, ids), at);
    EmptyStream();
    for i := 0 to |entries|
      invariant active.ids == ids
      invariant hasher.stream == start + Stream(done)
      invariant done + FlattenChildren(ChildrenOf(fs, entries[i..], ids), at) == all
    {
      assert entries[i..][0] == entries[i] && entries[i..][1..] == entries[i + 1..];
      ghost var facts := Flatten(ViewOf(fs, entries[i].node, ids), Below(at, entries[i].name));
      ManifestEntry(hasher, fs, entries[i].node, Below(at, entries[i].name), active);
      StreamConcat(done, facts);
      ghost var rest := FlattenChildren(ChildrenOf(fs, entries[i + 1..], ids), at);
      assert FlattenChildren(ChildrenOf(fs, entries[i..], ids), at) == facts + rest;
      assert done + (facts + rest) == done + facts + rest;
      done := done + facts;
    }
    assert done + [] == done;
  }

  lemma EmptyStream()
    ensures Stream([]) == []
  {
  }

  method WriteInfo(hasher: Digest, at: Bytes, format: Bytes, info: Info)
    modifies hasher
    ensures hasher.stream == old(hasher.stream) + Stream(InfoFacts(at, format, info))
  {
    hide Stream;
    Write(hasher, Path, at);
    Write(hasher, Type, format);
    Write(hasher, Mode, info.mode);
    Write(hasher, Size, info.size);
    Write(hasher, MtimeNs, info.mtime);
    StreamConcat([Fact(Path, at)], [Fact(Type, format)]);
    StreamConcat([Fact(Path, at), Fact(Type, format)], [Fact(Mode, info.mode)]);
    StreamConcat([Fact(Path, at), Fact(Type, format), Fact(Mode, info.mode)], [Fact(Size, info.size)]);
    StreamConcat([Fact(Path, at), Fact(Type, format), Fact(Mode, info.mode), Fact(Size, info.size)], [Fact(MtimeNs, info.mtime)]);
    assert InfoFacts(at, format, info)
           == [Fact(Path, at), Fact(Type, format), Fact(Mode, info.mode), Fact(Size, info.size)] + [Fact(MtimeNs, info.mtime)];
    assert [Fact(Path, at), Fact(Type, format), Fact(Mode, info.mode), Fact(Size, info.size)]
           == [Fact(Path, at), Fact(Type, format), Fact(Mode, info.mode)] + [Fact(Size, info.size)];
    assert [Fact(Path, at), Fact(Type, format), Fact(Mode, info.mode)]
           == [Fact(Path, at), Fact(Type, format)] + [Fact(Mode, info.mode)];
    assert [Fact(Path, at), Fact(Type, format)] == [Fact(Path, at)] + [Fact(Type, format)];
  }

  /** The file format that `lstat` reports. */
  function FormatAt(node: Node): Bytes {
    match node
    case Absent(_) => TypeText(MISSING)
    case File(_, _) => TypeText(REGULAR)
    case Directory(_, _) => TypeText(DIRECTORY)
    case Special(_, format) => format
    case _ => TypeText(LINK)
  }

  method ManifestEntry(hasher: Digest, fs: FileSystem, node: Node, at: Bytes, active: ActiveDirectories)
    modifies hasher, active
    ensures active.ids == old(active.ids)
    ensures hasher.stream == old(hasher.stream) + Stream(Flatten(ViewOf(fs, node, old(active.ids)), at))
    decreases fs.listings.Keys - active.ids, 2, 0
  {
    hide Stream, TypeText, InfoFacts, Body;
    ghost var view := ViewOf(fs, node, active.ids);
    if node.Absent? {
      Write(hasher, Path, at);
      Write(hasher, Type, TypeText(MISSING));
      Write(hasher, StatError, node.error);
      ghost var x, y, z := Fact(Path, at), Fact(Type, TypeText(MISSING)), Fact(StatError, node.error);
      StreamConcat([x], [y]);
      StreamConcat([x] + [y], [z]);
      assert Flatten(view, at) == ([x] + [y]) + [z];
    } else {
      FlattenParts(view, at);
      hide Flatten;
      WriteInfo(hasher, at, FormatAt(node), node.info);
      ManifestTarget(hasher, fs, node, at, active);
      StreamConcat(InfoFacts(at, FormatOf(view), view.info), Body(view, at));
    }
  }

  /** What is recorded of a path after its own facts: where a link leads, what a directory lists,
      what a file holds. */
  method ManifestTarget(hasher: Digest, fs: FileSystem, node: Node, at: Bytes, active: ActiveDirectories)
    modifies hasher, active
    ensures active.ids == old(active.ids)
    ensures hasher.stream == old(hasher.stream) + Stream(Body(ViewOf(fs, node, old(active.ids)), at))
    decreases fs.listings.Keys - active.ids, 1, 0
  {
    hide Stream, FlattenListing, ListingOf;
    ghost var ids := active.ids;
    EmptyStream();
    match node
    case LinkUnreadable(_, error) =>
      Write(hasher, LinkError, error);
    case LinkBroken(_, text, error) =>
      Write(hasher, LinkText, text);
      Write(hasher, LinkError, error);
      StreamConcat([Fact(LinkText, text)], [Fact(LinkError, error)]);
      assert [Fact(LinkText, text)] + [Fact(LinkError, error)] == [Fact(LinkText, text), Fact(LinkError, error)];
    case LinkToFile(_, text, content) =>
      Write(hasher, LinkText, text);
      ManifestFile(hasher, content);
      StreamConcat([Fact(LinkText, text)], [ContentFact(content)]);
      assert [Fact(LinkText, text)] + [ContentFact(content)] == [Fact(LinkText, text), ContentFact(content)];
    case LinkToDirectory(_, text, folder) =>
      Write(hasher, LinkText, text);
      ManifestDirectory(hasher, fs, folder, at, active);
      StreamConcat([Fact(LinkText, text)], FlattenListing(ListingOf(fs, folder, ids), at));
    case LinkToSpecial(_, text) =>
      Write(hasher, LinkText, text);
      NothingListed(at);
      assert [Fact(LinkText, text)] + [] == [Fact(LinkText, text)];
    case Directory(_, folder) =>
      ManifestDirectory(hasher, fs, folder, at, active);
    case File(_, content) =>
      ManifestFile(hasher, content);
    case _ =>
  }

  lemma NothingListed(at: Bytes)
    ensures FlattenListing(Children([]), at) == []
  {
  }

  method ManifestInput(hasher: Digest, fs: FileSystem, input: Input, index: nat)
    modifies hasher
    ensures hasher.stream == old(hasher.stream) + Stream(InputFacts(fs, input, index))
  {
    hide Stream, Flatten, ViewOf, InputLabel;
    var active := new ActiveDirectories();
    Write(hasher, ArgumentIndex, Decimal(index));
    Write(hasher, Argument, input.argument);
    ManifestEntry(hasher, fs, input.node, InputLabel(index), active);
    ghost var x, y := Fact(ArgumentIndex, Decimal(index)), Fact(Argument, input.argument);
    StreamConcat([x], [y]);
    assert [x, y] == [x] + [y];
    StreamConcat([x, y], Flatten(ViewOf(fs, input.node, {}), InputLabel(index)));
  }

  method InputFingerprint(fs: FileSystem, inputs: seq<Input>) returns (hasher: Digest)
    ensures fresh(hasher) && hasher.stream == Stream(RunFacts(fs, inputs, 0))
  {
    hide Stream, InputFacts;
    hasher := new Digest();
    ghost var done: seq<Fact> := [];
    EmptyStream();
    for i := 0 to |inputs|
      invariant fresh(hasher) && hasher.stream == Stream(done)
      invariant done + RunFacts(fs, inputs[i..], i) == RunFacts(fs, inputs, 0)
    {
      assert inputs[i..][0] == inputs[i] && inputs[i..][1..] == inputs[i + 1..];
      ManifestInput(hasher, fs, inputs[i], i);
      StreamConcat(done, InputFacts(fs, inputs[i], i));
      ghost var rest := RunFacts(fs, inputs[i + 1..], i + 1);
      assert done + (InputFacts(fs, inputs[i], i) + rest) == done + InputFacts(fs, inputs[i], i) + rest;
      done := done + InputFacts(fs, inputs[i], i);
    }
    assert done + [] == done;
  }
}
