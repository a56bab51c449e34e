/** The store of captured output files and of the links that publish them (internal/agent/artifact.go). */
module Artifacts {
  import opened Wrappers
  import opened Numerals
  import opened Strings
  import opened Links

  /** expires is an instant in nanoseconds. The file of an artifact has the artifact's name. */
  datatype Artifact = Artifact(id: string, name: string, size: nat, expires: int)

  datatype Store = Store(files: map<string, seq<byte>>, items: map<string, Artifact>)

  /** The text of 16 random bytes. */
  predicate IsId(id: string) {
    |id| == 32 && forall i :: 0 <= i < |id| ==> '0' <= id[i] <= '9' || 'a' <= id[i] <= 'f'
  }

  predicate IsStream(stream: string) {
    stream == "stdout" || stream == "stderr"
  }

  function NameOf(id: string, stream: string): string {
    id + "-" + stream + ".log"
  }

  /** The whole seconds of an instant, rounded down. */
  function Unix(t: int): int {
    t / SECOND
  }

  /** The link of an artifact after the base URL. mac is the keyed digest of the store. */
  function LinkOf(mac: string -> seq<byte>, a: Artifact): string
    requires IsBytes(a.id) && IsBytes(a.name)
  {
    Link(DOWNLOAD, a.id, a.name, Unix(a.expires), mac(Message(a.id, a.name, Unix(a.expires))))
  }

  /** The signed text. */
  function Message(id: string, name: string, expires: int): string {
    id + "\0" + name + "\0" + Format(expires)
  }

  lemma NamesDiffer(id: string, stream: string, id': string, stream': string)
    requires IsId(id) && IsId(id') && NameOf(id, stream) == NameOf(id', stream')
    ensures id == id'
  {
    assert NameOf(id, stream)[..32] == id && NameOf(id', stream')[..32] == id';
  }

  lemma NameIsClean(id: string, stream: string)
    requires IsId(id) && IsStream(stream)
    ensures var name := NameOf(id, stream); IsBytes(name) && Without(name, '/') && IsBytes(id) && Without(id, '/')
  {
  }

  /** What the name of a capture file looks like. */
  lemma NameLooksLike(id: string)
    ensures NameOf(id, "stdout") == id + "-stdout.log" && NameOf(id, "stderr") == id + "-stderr.log"
  {
  }

  /** Whole seconds are what strconv.FormatInt gets from Time.Unix. */
  lemma UnixIsFloor(t: int)
    ensures Unix(t) * 1_000_000_000 <= t < (Unix(t) + 1) * 1_000_000_000
  {
  }

  lemma {:induction false} FormatNulFree(x: int)
    ensures NulFree(Format(x))
  {
    var s := Format(x);
    forall i | 0 <= i < |s| ensures s[i] != '\0' {
    }
  }

  /** The signed text of an id and a name without NUL fixes the id, the name and the expiry. */
  lemma SignedTextDistinguishes(id: string, name: string, expires: int, id': string, name': string, expires': int)
    requires NulFree(id) && NulFree(name)
    requires -TWO_63 <= expires < TWO_63 && -TWO_63 <= expires' < TWO_63
    ensures Message(id, name, expires) == Message(id', name', expires') <==>
            id == id' && name == name' && expires == expires'
  {
    if Message(id, name, expires) == Message(id', name', expires') {
      assert Message(id, name, expires) == Join(Join(id, name), Format(expires));
      assert Message(id', name', expires') == Join(Join(id', name'), Format(expires'));
      FormatNulFree(expires);
      FormatNulFree(expires');
      JoinInjective(Join(id, name), Format(expires), Join(id', name'), Format(expires'));
      IntReadsBack(expires);
      IntReadsBack(expires');
      OneNul(id, name, id', name');
    }
  }

  lemma OneNul(a: string, x: string, b: string, y: string)
    requires NulFree(a) && NulFree(x) && Join(a, x) == Join(b, y)
    ensures a == b && x == y
  {
    var s := Join(a, x);
    forall k | 0 <= k < |s| && k != |a| ensures s[k] != '\0' {
      if k < |a| {
        assert a[k] in a;
      } else {
        assert x[k - |a| - 1] in x;
      }
    }
    assert Join(b, y)[|b|] == '\0';
    assert s[..|a|] == a && Join(b, y)[..|b|] == b && s[|a| + 1..] == x && Join(b, y)[|b| + 1..] == y;
  }

  // ---------------------------------------------------------------------
  // Operations
  // ---------------------------------------------------------------------

  function Published(s: Store, a: Artifact): Store {
    s.(items := s.items[a.id := a])
  }

  function Discarded(s: Store, name: string): Store {
    s.(files := s.files - {name})
  }

  /** The file called name belongs to an item of ids that has expired by now. */
  ghost predicate Doomed(items: map<string, Artifact>, ids: set<string>, now: int, name: string) {
    exists id :: id in ids && id in items && now > items[id].expires && items[id].name == name
  }

  ghost function CleanedUp(s: Store, now: int): Store {
    Store(map n | n in s.files && !Doomed(s.items, s.items.Keys, now, n) :: s.files[n],
          map id | id in s.items && now <= s.items[id].expires :: s.items[id])
  }

  class ArtifactStore {
    const ttl: int
    var files: map<string, seq<byte>>
    var items: map<string, Artifact>

    ghost function State(): Store
      reads this
    {
      Store(files, items)
    }

    /** No file is left over from an earlier process. */
    constructor (ttl: int)
      ensures State() == Store(map[], map[]) && this.ttl == ttl
    {
      this.ttl := ttl;
      files, items := map[], map[];
    }

    method NewCapture(id: string, stream: string) returns (name: Option<string>)
      modifies this
      ensures name == if NameOf(id, stream) in old(files) then None else Some(NameOf(id, stream))
      ensures State() == old(if name.Some? then State().(files := files[NameOf(id, stream) := []]) else State())
    {
      if NameOf(id, stream) in files {
        return None;
      }
      files := files[NameOf(id, stream) := []];
      name := Some(NameOf(id, stream));
    }

    method Discard(name: string)
      modifies this
      ensures State() == Discarded(old(State()), name)
    {
      files := files - {name};
    }

    method Publish(id: string, name: string, size: nat, now: int) returns (a: Artifact)
      modifies this
      ensures a == Artifact(id, name, size, now + ttl)
      ensures State() == Published(old(State()), a)
    {
      a := Artifact(id, name, size, now + ttl);
      items := items[id := a];
    }

    /** One round of the cleanup loop. */
    method CleanUp(now: int)
      modifies this
      ensures State() == CleanedUp(old(State()), now)
      ensures forall id :: id in items <==> id in old(items) && now <= old(items)[id].expires
      ensures forall id :: id in items ==> items[id] == old(items)[id]
      ensures forall name :: name in files ==> name in old(files) && files[name] == old(files)[name]
      ensures forall name :: name in old(files) ==>
                (name in files <==>
                   forall id :: id in old(items) && old(items)[id].name == name ==> now <= old(items)[id].expires)
    {
      var left := items.Keys;
      while left != {}
        invariant left <= old(items).Keys
        invariant items == map id | id in old(items) && (id in left || now <= old(items)[id].expires) :: old(items)[id]
        invariant files ==
                  map n | n in old(files) && !Doomed(old(items), old(items).Keys - left, now, n) :: old(files)[n]
        decreases left
      {
        var id :| id in left;
        var item := items[id];
        if now > item.expires {
          files := files - {item.name};
          items := items - {id};
        }
        left := left - {id};
      }
      assert old(items).Keys - left == old(items).Keys;
    }
  }
}
