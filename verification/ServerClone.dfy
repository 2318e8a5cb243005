/**
 Isolation of the server cache (internal/streaming/servers_stability.go):
 cloneServers, on the heap.  A slice is an array that may be nil, a map an
 object that may be nil; structs are values that hold those references.
 */
module ServerClone {
  import opened ServerLists
  import opened Stability

  class HeaderMap {
    var entries: map<string, string>

    constructor ()
      ensures entries == map[]
    {
      entries := map[];
    }
  }

  datatype SourceRef = SourceRef(url: string, kind: string, quality: string, subtitles: array?<Subtitle>, verification: string)

  datatype ServerRef = ServerRef(name: string, provider: string, lang: string, sources: array?<SourceRef>,
                                 headers: HeaderMap?, downloads: array?<Link>)

  type ListRef = array?<ServerRef>

  // ----- what a list holds, and which objects it is made of -----

  ghost function Elems<T>(a: array?<T>): seq<T>
    reads a
  {
    if a == null then [] else a[..]
  }

  ghost function Entries(h: HeaderMap?): map<string, string>
    reads h
  {
    if h == null then map[] else h.entries
  }

  predicate Within(o: object?, repr: set<object>) {
    o == null || o in repr
  }

  /** repr holds every object the sources are made of. */
  ghost predicate SourcesIn(a: array?<SourceRef>, repr: set<object>)
    reads repr
  {
    Within(a, repr) && forall s | s in Elems(a) :: Within(s.subtitles, repr)
  }

  ghost function SourceValue(s: SourceRef): Source
    reads s.subtitles
  {
    Source(s.url, s.kind, s.quality, Elems(s.subtitles), s.verification)
  }

  ghost function SourceValues(a: array?<SourceRef>, repr: set<object>): (vs: seq<Source>)
    requires SourcesIn(a, repr)
    reads repr
    ensures |vs| == |Elems(a)|
  {
    seq(|Elems(a)|, i requires 0 <= i < |Elems(a)| && SourcesIn(a, repr) reads repr => SourceValue(a[i]))
  }

  ghost predicate ServerIn(s: ServerRef, repr: set<object>)
    reads repr
  {
    SourcesIn(s.sources, repr) && Within(s.headers, repr) && Within(s.downloads, repr)
  }

  ghost function ServerValue(s: ServerRef, repr: set<object>): Server
    requires ServerIn(s, repr)
    reads repr
  {
    Server(s.name, s.provider, s.lang, SourceValues(s.sources, repr), Entries(s.headers), Elems(s.downloads))
  }

  lemma WiderRepr(s: ServerRef, repr: set<object>, wider: set<object>)
    requires ServerIn(s, repr) && repr <= wider
    ensures ServerIn(s, wider) && ServerValue(s, wider) == ServerValue(s, repr)
  {
    assert SourceValues(s.sources, wider) == SourceValues(s.sources, repr);
  }

  /** repr holds every object the list is made of, down to headers and subtitles. */
  ghost predicate ListIn(l: ListRef, repr: set<object>)
    reads repr
  {
    Within(l, repr) && forall s | s in Elems(l) :: ServerIn(s, repr)
  }

  ghost function ListValue(l: ListRef, repr: set<object>): (vs: seq<Server>)
    requires ListIn(l, repr)
    reads repr
    ensures |vs| == |Elems(l)|
  {
    seq(|Elems(l)|, i requires 0 <= i < |Elems(l)| && ListIn(l, repr) reads repr => ServerValue(l[i], repr))
  }

  // ----- cloneServers -----

  method CloneArray<T>(a: array<T>) returns (out: array<T>)
    ensures fresh(out) && out[..] == a[..]
  {
    out := new T[a.Length](i requires 0 <= i < a.Length reads a => a[i]);
    assert out[..] == a[..];
  }

  method CloneHeaders(h: HeaderMap) returns (out: HeaderMap)
    ensures fresh(out) && out.entries == h.entries
  {
    out := new HeaderMap();
    var todo := h.entries.Keys;
    while todo != {}
      invariant fresh(out) && todo <= h.entries.Keys
      invariant out.entries.Keys == h.entries.Keys - todo
      invariant forall k | k in out.entries :: out.entries[k] == h.entries[k]
    {
      var key :| key in todo;
      out.entries := out.entries[key := h.entries[key]];
      todo := todo - {key};
    }
  }

  method CloneSource(source: SourceRef) returns (copy: SourceRef, ghost mine: set<object>)
    ensures fresh(mine) && Within(copy.subtitles, mine) && SourceValue(copy) == SourceValue(source)
  {
    copy, mine := source, {};
    if source.subtitles != null {
      // an append to nil: an empty list comes out nil
      if source.subtitles.Length == 0 {
        copy := source.(subtitles := null);
      } else {
        var subtitles := CloneArray(source.subtitles);
        copy, mine := source.(subtitles := subtitles), {subtitles};
      }
    }
  }

  method CloneSources(a: array<SourceRef>, ghost repr: set<object>) returns (out: array<SourceRef>, ghost mine: set<object>)
    requires SourcesIn(a, repr)
    ensures fresh(mine) && SourcesIn(out, mine)
    ensures SourceValues(out, mine) == SourceValues(a, repr)
  {
    out := new SourceRef[a.Length];
    mine := {out};
    ghost var was := SourceValues(a, repr);
    var j := 0;
    while j < a.Length
      invariant 0 <= j <= a.Length && out.Length == a.Length && fresh(mine) && out in mine
      invariant forall k | 0 <= k < j :: Within(out[k].subtitles, mine) && SourceValue(out[k]) == was[k]
      invariant SourceValues(a, repr) == was
    {
      var source, objects := CloneSource(a[j]);
      out[j] := source;
      mine := mine + objects;
      j := j + 1;
    }
  }

  method CloneServer(server: ServerRef, ghost repr: set<object>) returns (copy: ServerRef, ghost mine: set<object>)
    requires ServerIn(server, repr)
    ensures fresh(mine) && ServerIn(copy, mine)
    ensures ServerValue(copy, mine) == ServerValue(server, repr)
  {
    copy, mine := server.(headers := null, sources := null, downloads := null), {};
    if server.sources != null {
      var sources, objects := CloneSources(server.sources, repr);
      copy, mine := copy.(sources := sources), mine + objects;
    }
    if server.headers != null {
      var headers := CloneHeaders(server.headers);
      copy, mine := copy.(headers := headers), mine + {headers};
    }
    if server.downloads != null && server.downloads.Length > 0 {
      var downloads := CloneArray(server.downloads);
      copy, mine := copy.(downloads := downloads), mine + {downloads};
    }
  }

  /** ss are servers with the values vs starts with. */
  ghost predicate Copied(ss: seq<ServerRef>, repr: set<object>, vs: seq<Server>)
    reads repr
  {
    |ss| <= |vs| && forall k | 0 <= k < |ss| :: ServerIn(ss[k], repr) && ServerValue(ss[k], repr) == vs[k]
  }

  lemma NothingCopied(a: array<ServerRef>, vs: seq<Server>)
    ensures Copied(a[..0], {}, vs)
  {
  }

  lemma OneMoreCopied(ss: seq<ServerRef>, repr: set<object>, server: ServerRef, objects: set<object>, vs: seq<Server>)
    requires Copied(ss, repr, vs) && |ss| < |vs|
    requires ServerIn(server, objects) && ServerValue(server, objects) == vs[|ss|]
    ensures Copied(ss + [server], repr + objects, vs)
  {
    hide ServerIn, ServerValue;
    forall k | 0 <= k < |ss|
      ensures ServerIn(ss[k], repr + objects) && ServerValue(ss[k], repr + objects) == vs[k]
    {
      WiderRepr(ss[k], repr, repr + objects);
    }
    WiderRepr(server, objects, repr + objects);
  }

  lemma AllCopied(a: array<ServerRef>, repr: set<object>, vs: seq<Server>)
    requires Copied(a[..a.Length], repr, vs) && a.Length == |vs|
    ensures ListIn(a, repr + {a}) && ListValue(a, repr + {a}) == vs
  {
    hide ServerIn, ServerValue;
    forall k | 0 <= k < a.Length
      ensures ServerIn(a[k], repr + {a}) && ServerValue(a[k], repr + {a}) == vs[k]
    {
      assert a[..a.Length][k] == a[k];
      WiderRepr(a[k], repr, repr + {a});
    }
  }

  lemma ElementOf(l: array<ServerRef>, repr: set<object>, i: nat)
    requires ListIn(l, repr) && i < l.Length
    ensures ServerIn(l[i], repr) && |ListValue(l, repr)| == l.Length && ServerValue(l[i], repr) == ListValue(l, repr)[i]
  {
    assert l[i] in Elems(l);
  }

  /** The loop's body: slot i of copy becomes a clone of the server. */
  method CloneInto(server: ServerRef, ghost repr: set<object>, copy: array<ServerRef>, i: nat, ghost deep: set<object>, ghost was: seq<Server>)
    returns (ghost objects: set<object>)
    requires i < copy.Length <= |was| && copy !in repr && copy !in deep
    requires ServerIn(server, repr) && ServerValue(server, repr) == was[i]
    requires Copied(copy[..i], deep, was)
    modifies copy
    ensures fresh(objects) && Copied(copy[..i + 1], deep + objects, was)
  {
    hide ServerValue, ServerIn, Copied;
    var clone;
    clone, objects := CloneServer(server, repr);
    OneMoreCopied(copy[..i], deep, clone, objects, was);
    copy[i] := clone;
    assert copy[..i + 1] == copy[..i] + [clone];
  }

  /** A deep copy: the same value, made of new objects only; nothing old is touched. */
  method CloneServers(servers: ListRef, ghost repr: set<object>) returns (out: ListRef, ghost mine: set<object>)
    requires ListIn(servers, repr)
    ensures fresh(mine) && ListIn(out, mine)
    ensures ListValue(out, mine) == ListValue(servers, repr)
    ensures out == null <==> servers == null
  {
    if servers == null {
      return null, {};
    }
    hide ServerValue, ServerIn, ListIn, ListValue, Copied;
    var copy := new ServerRef[servers.Length];
    ghost var deep: set<object> := {};
    ghost var was := ListValue(servers, repr);
    NothingCopied(copy, was);
    var i := 0;
    while i < servers.Length
      invariant 0 <= i <= servers.Length == copy.Length && fresh(copy) && fresh(deep) && copy !in deep
      invariant Copied(copy[..i], deep, was)
      invariant ListIn(servers, repr) && ListValue(servers, repr) == was
    {
      ElementOf(servers, repr, i);
      ghost var objects := CloneInto(servers[i], repr, copy, i, deep, was);
      deep := deep + objects;
      i := i + 1;
    }
    out, mine := copy, deep + {copy};
    AllCopied(copy, deep, was);
  }

  // ----- the cache and its callers -----

  ghost predicate AllIn(stored: map<RequestKey, ListRef>, repr: set<object>)
    reads repr
  {
    forall k | k in stored :: ListIn(stored[k], repr)
  }

  ghost function Values(stored: map<RequestKey, ListRef>, repr: set<object>): (vs: map<RequestKey, seq<Server>>)
    requires AllIn(stored, repr)
    reads repr
    ensures vs.Keys == stored.Keys
  {
    map k | k in stored :: ListValue(stored[k], repr)
  }

  lemma WiderList(l: ListRef, repr: set<object>, wider: set<object>)
    requires ListIn(l, repr) && repr <= wider
    ensures ListIn(l, wider) && ListValue(l, wider) == ListValue(l, repr)
  {
    hide ServerIn, ServerValue;
    forall i | 0 <= i < |Elems(l)|
      ensures ServerIn(l[i], wider) && ServerValue(l[i], wider) == ServerValue(l[i], repr)
    {
      assert l[i] in Elems(l);
      WiderRepr(l[i], repr, wider);
    }
  }

  lemma OneMoreKept(stored: map<RequestKey, ListRef>, repr: set<object>, key: RequestKey, kept: ListRef, objects: set<object>)
    requires AllIn(stored, repr) && ListIn(kept, objects)
    ensures AllIn(stored[key := kept], repr + objects)
    ensures Values(stored[key := kept], repr + objects) == Values(stored, repr)[key := ListValue(kept, objects)]
  {
    hide ListIn, ListValue;
    forall k | k in stored
      ensures ListIn(stored[k], repr + objects) && ListValue(stored[k], repr + objects) == ListValue(stored[k], repr)
    {
      WiderList(stored[k], repr, repr + objects);
    }
    WiderList(kept, objects, repr + objects);
  }

  /** The lists a cache keeps, and the objects only it may reach. */
  class SharedLists {
    var stored: map<RequestKey, ListRef>
    ghost var repr: set<object>

    ghost predicate Valid()
      reads this, repr
    {
      this !in repr && AllIn(stored, repr)
    }

    ghost function Contents(): map<RequestKey, seq<Server>>
      requires Valid()
      reads this, repr
    {
      Values(stored, repr)
    }

    constructor ()
      ensures Valid() && Contents() == map[] && repr == {}
    {
      stored, repr := map[], {};
    }

    /** What storeList does with the list it has settled on: keep one clone, hand out another. */
    method Keep(key: RequestKey, servers: ListRef, ghost theirs: set<object>) returns (out: ListRef, ghost mine: set<object>)
      requires Valid() && ListIn(servers, theirs)
      modifies this
      ensures Valid() && fresh(repr - old(repr))
      ensures Contents() == old(Contents())[key := old(ListValue(servers, theirs))]
      ensures fresh(mine) && this !in mine && mine !! repr && ListIn(out, mine)
      ensures ListValue(out, mine) == old(ListValue(servers, theirs))
    {
      hide ListIn, ListValue, AllIn, Values;
      var kept, objects := CloneServers(servers, theirs);
      out, mine := CloneServers(servers, theirs);
      OneMoreKept(stored, repr, key, kept, objects);
      stored, repr := stored[key := kept], repr + objects;
    }

    /** What loadList does with a snapshot that has not expired. */
    method Lend(key: RequestKey) returns (out: ListRef, ghost mine: set<object>)
      requires Valid() && key in stored
      ensures fresh(mine) && ListIn(out, mine)
      ensures ListValue(out, mine) == Contents()[key]
    {
      hide ListIn, ListValue;
      out, mine := CloneServers(stored[key], repr);
    }
  }

  /** A caller rewriting everything a list reaches: subtitles, sources, headers, downloads, the list itself. */
  method Rewrite(l: ListRef, ghost theirs: set<object>, server: ServerRef, source: SourceRef, subtitle: Subtitle, link: Link)
    requires ListIn(l, theirs)
    modifies theirs
  {
    if l == null || l.Length == 0 {
      return;
    }
    var i := 0;
    var first := l[0];
    assert first in Elems(l);
    if first.sources != null && first.sources.Length > 0 {
      var s := first.sources[0];
      assert s in Elems(first.sources);
      if s.subtitles != null && s.subtitles.Length > 0 {
        s.subtitles[0] := subtitle;
      }
      first.sources[0] := source;
    }
    if first.headers != null {
      first.headers.entries := map[];
    }
    if first.downloads != null && first.downloads.Length > 0 {
      first.downloads[0] := link;
    }
    l[0] := server;
  }

  /**
   Whatever a caller does to the list it passed in, the list it got back and a
   list it was lent, the cache goes on lending the list as it was stored.
   */
  method CallersCannotReachTheCache(c: SharedLists, key: RequestKey, servers: ListRef, ghost theirs: set<object>,
                                    server: ServerRef, source: SourceRef, subtitle: Subtitle, link: Link)
    returns (lent: ListRef, ghost mine: set<object>)
    requires c.Valid() && ListIn(servers, theirs) && theirs !! c.repr && c !in theirs
    modifies c, theirs
    ensures c.Valid() && c.Contents() == old(c.Contents())[key := old(ListValue(servers, theirs))]
    ensures fresh(mine) && ListIn(lent, mine) && ListValue(lent, mine) == old(ListValue(servers, theirs))
  {
    hide ListIn, ListValue, AllIn, Values;
    ghost var contents := c.Contents()[key := ListValue(servers, theirs)];
    var out, first := c.Keep(key, servers, theirs);
    Rewrite(out, first, server, source, subtitle, link);
    assert c.Contents() == contents;
    var borrowed, second := c.Lend(key);
    Rewrite(borrowed, second, server, source, subtitle, link);
    assert c.Contents() == contents;
    Rewrite(servers, theirs, server, source, subtitle, link);
    lent, mine := c.Lend(key);
  }
}
