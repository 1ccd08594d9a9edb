/** The file system: an ordered, append-only list of handlers, each of which resolves a path
    to a byte source or reports "not here"; `Open` takes the first that resolves. */
module FileSystems {
  import opened Wrappers
  import opened MemFiles
  import opened Files

  /** The directory handler's candidate path: the root, one slash, then the requested path,
      with no normalisation of either. */
  function Join(root: string, path: string): (full: string)
    ensures |full| == |root| + 1 + |path|
    ensures full[..|root|] == root && full[|root|] == '/' && full[|root| + 1..] == path
  {
    root + "/" + path
  }

  /** For a fixed root, distinct requested paths give distinct candidate paths. */
  lemma JoinInjective(root: string, p: string, q: string)
    requires Join(root, p) == Join(root, q)
    ensures p == q
  {
    assert p == Join(root, p)[|root| + 1..];
  }

  /** What the handlers can see of the host: the readable files by full path, and the
      archives by path with their entries decoded. */
  datatype Host = Host(files: map<string, seq<Byte>>, archives: map<string, map<string, seq<Byte>>>)

  /** The two handler variants and their configuration. */
  datatype Handler = Directory(root: string) | Zip(zipFile: string)

  /** The error `Open` reports, naming the requested path. */
  datatype Error = NotFound(path: string)

  /** A handler's resolution of `path`: the bytes of the source it would open, or None for
      "try the next handler". The archive handler opens the archive named by the requested
      path, not its configured `zipFile`, and looks the same path up as the entry name. */
  function Resolve(h: Handler, path: string, host: Host): (r: Option<seq<Byte>>)
    ensures h.Directory? ==> (r.Some? <==> Join(h.root, path) in host.files)
    ensures h.Directory? && r.Some? ==> r.value == host.files[Join(h.root, path)]
    ensures h.Zip? ==> (r.Some? <==> path in host.archives && path in host.archives[path])
    ensures h.Zip? && r.Some? ==> r.value == host.archives[path][path]
  {
    match h
    case Directory(root) =>
      var full := Join(root, path);
      if full in host.files then Some(host.files[full]) else None
    case Zip(_) =>
      if path in host.archives && path in host.archives[path] then Some(host.archives[path][path]) else None
  }

  /** The configured archive name plays no part in what the archive handler resolves. */
  lemma ZipIgnoresConfiguredArchive(a: string, b: string, path: string, host: Host)
    ensures Resolve(Zip(a), path, host) == Resolve(Zip(b), path, host)
    ensures Resolve(Zip(a), path, host).Some? <==> path in host.archives && path in host.archives[path]
  {
  }

  /** The index of the handler `Open` uses: the first, in list order, that resolves `path`.
      None exactly when no handler resolves it, which includes the empty list. */
  function FirstMatch(hs: seq<Handler>, path: string, host: Host): (r: Option<nat>)
    ensures r.Some? ==> r.value < |hs| && Resolve(hs[r.value], path, host).Some?
    ensures r.Some? ==> forall j :: 0 <= j < r.value ==> Resolve(hs[j], path, host).None?
    ensures r.None? <==> forall j :: 0 <= j < |hs| ==> Resolve(hs[j], path, host).None?
    decreases |hs|
  {
    if hs == [] then None
    else if Resolve(hs[0], path, host).Some? then Some(0)
    else match FirstMatch(hs[1..], path, host)
      case None => None
      case Some(i) => Some(i + 1)
  }

  /** Appending a handler never changes a resolution the earlier handlers already make; the
      new handler is consulted only when all of them fail. */
  lemma {:induction false} FirstMatchAppend(hs: seq<Handler>, h: Handler, path: string, host: Host)
    ensures FirstMatch(hs + [h], path, host)
         == if FirstMatch(hs, path, host).Some? then FirstMatch(hs, path, host)
            else if Resolve(h, path, host).Some? then Some(|hs|)
            else None
    decreases |hs|
  {
    if hs != [] {
      assert (hs + [h])[1..] == hs[1..] + [h];
      FirstMatchAppend(hs[1..], h, path, host);
    }
  }

  /** Of two handlers that both resolve a path, the one added first wins. */
  lemma EarlierHandlerWins(hs: seq<Handler>, i: nat, j: nat, path: string, host: Host)
    requires i < j < |hs|
    requires Resolve(hs[i], path, host).Some? && Resolve(hs[j], path, host).Some?
    ensures FirstMatch(hs, path, host).Some? && FirstMatch(hs, path, host).value <= i
  {
  }

  class FileSystem {
    /** The handlers in priority order. */
    var handlers: seq<Handler>

    /** An empty file system: every open fails. */
    constructor Empty()
      ensures handlers == []
    {
      handlers := [];
    }

    /** A file system that loads files from one directory. */
    constructor FromRoot(root: string)
      ensures handlers == [Directory(root)]
    {
      handlers := [];
      new;
      AddHandler(Directory(root));
    }

    /** A file system that loads files from the given directories, the first with the
        highest priority. */
    constructor FromRoots(roots: seq<string>)
      ensures |handlers| == |roots|
      ensures forall i :: 0 <= i < |roots| ==> handlers[i] == Directory(roots[i])
    {
      handlers := [];
      new;
      var k := 0;
      while k < |roots|
        invariant 0 <= k <= |roots|
        invariant |handlers| == k
        invariant forall i :: 0 <= i < k ==> handlers[i] == Directory(roots[i])
      {
        AddHandler(Directory(roots[k]));
        k := k + 1;
      }
    }

    /** Adds a handler with the lowest priority. */
    method AddHandler(h: Handler)
      modifies this
      ensures handlers == old(handlers) + [h]
    {
      handlers := handlers + [h];
    }

    /** Opens `path` with the first handler that resolves it, as a fresh file at offset 0
        over that handler's bytes; fails with NotFound only when every handler fails. */
    method Open(path: string, host: Host) returns (r: Result<File, Error>)
      ensures r.Failure? <==> FirstMatch(handlers, path, host).None?
      ensures r.Failure? ==> r.error == NotFound(path)
      ensures r.Success? ==> fresh(r.value) && fresh(r.value.handler) && r.value.handler.pos == 0
      ensures r.Success? ==>
        r.value.handler.data == Resolve(handlers[FirstMatch(handlers, path, host).value], path, host).value
    {
      var i := 0;
      while i < |handlers|
        invariant 0 <= i <= |handlers|
        invariant forall j :: 0 <= j < i ==> Resolve(handlers[j], path, host).None?
      {
        var found := Resolve(handlers[i], path, host);
        if found.Some? {
          var source := new MemFile.Owning(found.value);
          var file := new File(source);
          return Success(file);
        }
        i := i + 1;
      }
      return Failure(NotFound(path));
    }
  }
}
