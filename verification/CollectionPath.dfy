/** parse_collection_path of src/components/api/api_documents.c, lines 541-592. */
module CollectionPath {
  import opened Options
  import opened QueryString

  datatype Location = Location(library: string, collection: string)

  const LIBRARIES := "/api/libraries/"
  const COLLECTIONS := "/api/collections/"
  const INFIX := "collections/"

  /** Everything up to the first slash. */
  function UpToSlash(s: string): string { s[..Find(s, '/')] }

  function Parsed(path: string): Option<Location> {
    if LIBRARIES <= path then
      var rest := path[|LIBRARIES|..];
      var slash := Find(rest, '/');
      if slash == |rest| || !(INFIX <= rest[slash + 1..]) then None
      else Some(Location(rest[..slash], UpToSlash(rest[slash + 1..][|INFIX|..])))
    else if COLLECTIONS <= path then Some(Location("default", UpToSlash(path[|COLLECTIONS|..])))
    else None
  }

  /** The pointer moves along the path; an end of the string counts as the end of the collection name. */
  method ParseCollectionPath(path: string) returns (result: Option<Location>)
    ensures result == Parsed(path)
  {
    var p := path;
    if LIBRARIES <= p {
      p := p[|LIBRARIES|..];
      var slash := FindIn(p, '/');
      if slash == |p| {
        return None;
      }
      var library := p[..slash];
      p := p[slash + 1..];
      if !(INFIX <= p) {
        return None;
      }
      p := p[|INFIX|..];
      var end := FindIn(p, '/');
      return Some(Location(library, p[..end]));
    } else if COLLECTIONS <= p {
      p := p[|COLLECTIONS|..];
      var end := FindIn(p, '/');
      return Some(Location("default", p[..end]));
    } else {
      return None;
    }
  }

  // ----- What the two formats mean

  ghost predicate Tail(s: string) { s == [] || s[0] == '/' }

  ghost predicate InLibrary(path: string, at: Location) {
    '/' !in at.library && '/' !in at.collection &&
    exists tail :: Tail(tail) && path == LIBRARIES + (at.library + ("/" + (INFIX + (at.collection + tail))))
  }

  ghost predicate InDefault(path: string, at: Location) {
    at.library == "default" && '/' !in at.collection &&
    exists tail :: Tail(tail) && path == COLLECTIONS + (at.collection + tail)
  }

  lemma SplitAt(prefix: string, rest: string)
    ensures prefix <= prefix + rest && (prefix + rest)[|prefix|..] == rest && (prefix + rest)[..|prefix|] == prefix
  {
  }

  lemma UpToTail(name: string, tail: string)
    requires '/' !in name && Tail(tail)
    ensures Find(name + tail, '/') == |name| && UpToSlash(name + tail) == name
  {
    SplitAt(name, tail);
    FindIs(name + tail, '/', |name|);
  }

  lemma LibraryParsed(path: string, at: Location)
    requires InLibrary(path, at)
    ensures Parsed(path) == Some(at)
  {
    var tail :| Tail(tail) && path == LIBRARIES + (at.library + ("/" + (INFIX + (at.collection + tail))));
    var end := at.collection + tail;
    var middle := INFIX + end;
    SplitAt(LIBRARIES, at.library + ("/" + middle));
    SplitAt(at.library, "/" + middle);
    UpToTail(at.library, "/" + middle);
    SplitAt("/", middle);
    assert (at.library + ("/" + middle))[|at.library| + 1..] == middle;
    SplitAt(INFIX, end);
    UpToTail(at.collection, tail);
  }

  lemma DefaultParsed(path: string, at: Location)
    requires InDefault(path, at)
    ensures Parsed(path) == Some(at)
  {
    var tail :| Tail(tail) && path == COLLECTIONS + (at.collection + tail);
    SplitAt(COLLECTIONS, at.collection + tail);
    UpToTail(at.collection, tail);
    assert LIBRARIES[5] != COLLECTIONS[5] && path[5] == COLLECTIONS[5];
  }

  lemma Rejoin(s: string, n: nat)
    requires n <= |s|
    ensures s == s[..n] + s[n..]
    ensures n < |s| ==> s == s[..n] + ([s[n]] + s[n + 1..])
  {
  }

  lemma AfterPrefix(prefix: string, s: string)
    requires prefix <= s
    ensures s == prefix + s[|prefix|..]
  {
  }

  lemma InLibraryWith(path: string, at: Location, tail: string)
    requires '/' !in at.library && '/' !in at.collection && Tail(tail)
    requires path == LIBRARIES + (at.library + ("/" + (INFIX + (at.collection + tail))))
    ensures InLibrary(path, at)
  {
  }

  lemma ParsedInLibrary(path: string)
    requires LIBRARIES <= path && Parsed(path).Some?
    ensures InLibrary(path, Parsed(path).value)
  {
    var at := Parsed(path).value;
    var rest := path[|LIBRARIES|..];
    var slash := Find(rest, '/');
    var p := rest[slash + 1..];
    var end := p[|INFIX|..];
    var n := Find(end, '/');
    assert at == Location(rest[..slash], end[..n]) && INFIX <= p && [rest[slash]] == "/";
    assert Tail(end[n..]) && '/' !in at.library && '/' !in at.collection;
    hide Parsed, Find, UpToSlash, Tail, InLibrary;
    AfterPrefix(LIBRARIES, path);
    Rejoin(rest, slash);
    AfterPrefix(INFIX, p);
    Rejoin(end, n);
    InLibraryWith(path, at, end[n..]);
  }

  lemma ParsedInDefault(path: string)
    requires !(LIBRARIES <= path) && Parsed(path).Some?
    ensures InDefault(path, Parsed(path).value)
  {
    var rest := path[|COLLECTIONS|..];
    var tail := rest[Find(rest, '/')..];
    assert rest == UpToSlash(rest) + tail && path == COLLECTIONS + rest && Tail(tail);
  }

  /** The parser accepts exactly the paths of the two formats, for any names without a slash, whatever follows the
      collection, and the path determines the location. */
  lemma ParsedIff(path: string, at: Location)
    ensures Parsed(path) == Some(at) <==> InLibrary(path, at) || InDefault(path, at)
  {
    if InLibrary(path, at) {
      LibraryParsed(path, at);
    } else if InDefault(path, at) {
      DefaultParsed(path, at);
    } else if Parsed(path) == Some(at) {
      if LIBRARIES <= path {
        ParsedInLibrary(path);
      } else {
        ParsedInDefault(path);
      }
    }
  }
}
