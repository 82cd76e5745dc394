/**
 Who owns a message buffer: connections (newstate, Read, Write, Poll and Reap of libconn/conn.c), the
 application, and the files that upulld/rpc.c maps and shares between connections.
 */
module MappedFiles {
  import opened Basics

  type ConnId = nat
  type BufId = nat
  type Addr = nat

  datatype State = Reading | IoDone | Writing | Eof

  /**
   The part of a connection that decides what may happen next: whether some of the header, or all of
   it, has been transferred, and whether a whole message has come in.
   */
  datatype Conn = Conn(state: State, broken: bool, started: bool, headerDone: bool, received: bool)

  function HeldBy(data: map<ConnId, Buffer>, c: ConnId): Option<Buffer> {
    if c in data then Some(data[c]) else None
  }

  /** A sound connection waiting for a header holds nothing, and one with a message holds it on the heap. */
  ghost predicate Role(k: Conn, held: Option<Buffer>) {
    && (!k.broken && k.state == Reading && !k.headerDone ==> held == None)
    && (!k.broken && k.state == Reading && k.headerDone ==> held.Some? && held.value.Heap?)
    && (!k.broken && k.received ==> held.Some? && held.value.Heap?)
  }

  ghost predicate Roles(conns: map<ConnId, Conn>, data: map<ConnId, Buffer>) {
    && data.Keys <= conns.Keys
    && (forall c :: c in conns ==> Role(conns[c], HeldBy(data, c)))
  }

  /** A message buffer, with what its release takes: nothing, ckfree, or mfpDone. */
  datatype Buffer = Static | Heap(id: BufId) | File(addr: Addr)

  datatype Mapped = Mapped(addr: Addr, len: nat, refcount: nat)

  ghost function Holders(data: map<ConnId, Buffer>, addr: Addr): set<ConnId> {
    set c | c in data && data[c] == File(addr)
  }

  /** A heap buffer belongs to one connection, or to the application, or has been freed. */
  ghost predicate Owned(data: map<ConnId, Buffer>, app: set<BufId>, freed: set<BufId>, next: BufId) {
    && app !! freed
    && (forall id :: id in app || id in freed ==> id < next)
    && (forall c :: c in data && data[c].Heap? ==> data[c].id < next && data[c].id !in app && data[c].id !in freed)
    && (forall c, d :: c in data && d in data && data[c].Heap? && data[c] == data[d] ==> c == d)
    && (forall id: BufId :: id < next && id !in app && id !in freed ==> Held(data, id))
  }

  ghost predicate Held(data: map<ConnId, Buffer>, id: BufId) {
    exists c :: c in data && data[c] == Heap(id)
  }

  /** The two tables name the same files, and a file is mapped while it is in them. */
  ghost predicate Tables(files: map<string, Mapped>, byAddr: map<Addr, string>, mapped: set<Addr>) {
    && (forall n :: n in files ==> files[n].addr in byAddr && byAddr[files[n].addr] == n)
    && (forall a :: a in byAddr ==> byAddr[a] in files && files[byAddr[a]].addr == a)
    && (forall n :: n in files ==> (files[n].addr in mapped <==> files[n].len != 0))
    && mapped <= byAddr.Keys
  }

  /**
   The count of a file is the number of connections holding its address, and one more for the file
   being handed out.
   */
  ghost predicate Counts(files: map<string, Mapped>, byAddr: map<Addr, string>, data: map<ConnId, Buffer>,
      pinned: Option<string>) {
    && (forall n :: n in files ==> files[n].refcount == |Holders(data, files[n].addr)| + if pinned == Some(n) then 1
      else 0)
    && (forall n :: n in files ==> files[n].refcount > 0)
    && (forall c :: c in data && data[c].File? ==> data[c].addr in byAddr)
    && (pinned.Some? ==> pinned.value in files)
  }

  lemma HoldersLess(data: map<ConnId, Buffer>, c: ConnId, addr: Addr)
    requires c in data
    ensures Holders(data - {c}, addr) == Holders(data, addr) - {c}
    ensures |Holders(data - {c}, addr)| == |Holders(data, addr)| - if data[c] == File(addr) then 1 else 0
  {
    assert data[c] != File(addr) ==> Holders(data, addr) - {c} == Holders(data, addr);
  }

  lemma HoldersMore(data: map<ConnId, Buffer>, c: ConnId, b: Buffer, addr: Addr)
    requires c !in data
    ensures Holders(data[c := b], addr) == Holders(data, addr) + if b == File(addr) then {c} else {}
    ensures |Holders(data[c := b], addr)| == |Holders(data, addr)| + if b == File(addr) then 1 else 0
  {
    var h := Holders(data, addr);
    assert c !in h;
    assert Holders(data[c := b], addr) == h + if b == File(addr) then {c} else {};
  }

  class Server {
    var conns: map<ConnId, Conn>
    var data: map<ConnId, Buffer>
    var files: map<string, Mapped>
    var byAddr: map<Addr, string>
    // Heap buffers: those the application owns, those freed, and the next new one.
    var app: set<BufId>
    ghost var freed: set<BufId>
    var next: BufId
    // Addresses mapped in the process.
    ghost var mapped: set<Addr>

    ghost predicate Sound(pinned: Option<string>)
      reads this
    {
      && Owned(data, app, freed, next)
      && Tables(files, byAddr, mapped)
      && Counts(files, byAddr, data, pinned)
    }

    ghost predicate Valid()
      reads this
    {
      Sound(None) && Roles(conns, data)
    }

    constructor ()
      ensures Valid() && conns == map[] && data == map[] && files == map[] && byAddr == map[] && mapped == {} &&
        freed == {} && app == {}
    {
      conns, data, files, byAddr, app, freed, next, mapped := map[], map[], map[], map[], {}, {}, 0, {};
    }

    /** mfpDone: one holder fewer, and the last one unmaps the file. */
    method MfpDone(addr: Addr)
      requires addr in byAddr && Tables(files, byAddr, mapped) && files[byAddr[addr]].refcount > 0
      modifies this`files, this`byAddr, this`mapped
      ensures Tables(files, byAddr, mapped)
      ensures var n := old(byAddr)[addr]; var f := old(files)[n];
        if f.refcount == 1 then files == old(files) - {n} && byAddr == old(byAddr) - {addr} &&
          mapped == old(mapped) - {addr}
        else files == old(files)[n := f.(refcount := f.refcount - 1)] && byAddr == old(byAddr) && mapped == old(mapped)
    {
      var n := byAddr[addr];
      var f := files[n];
      files := files[n := f.(refcount := f.refcount - 1)];
      if f.refcount - 1 == 0 {
        if f.len != 0 {
          mapped := mapped - {addr};
        }
        byAddr := byAddr - {addr};
        files := files - {n};
      }
    }

    /** ckfree of a buffer that has not been freed. */
    method Ckfree(id: BufId)
      requires id !in freed
      modifies this`freed
      ensures freed == old(freed) + {id}
    {
      freed := freed + {id};
    }

    /** The first half of newstate: whatever the connection holds is released, once. */
    method Release(c: ConnId, ghost pinned: Option<string>)
      requires c in conns && Sound(pinned)
      modifies this`data, this`files, this`byAddr, this`mapped, this`freed
      ensures Sound(pinned) && data == old(data) - {c}
      ensures c !in old(data) ==> files == old(files) && byAddr == old(byAddr) && mapped == old(mapped)
      ensures freed == old(freed) + (if c in old(data) && old(data)[c].Heap? then {old(data)[c].id} else {})
      ensures forall n :: n in old(files) && pinned == Some(n) ==>
        n in files && files[n].addr == old(files)[n].addr && files[n].len == old(files)[n].len
    {
      hide Owned, Tables, Counts;
      if c !in data {
        assert data - {c} == data;
        return;
      }
      var b := data[c];
      OwnedLess(data, app, freed, next, c);
      match b {
        case Static =>
          CountsOther(files, byAddr, data, c, pinned);
        case Heap(id) =>
          CountsOther(files, byAddr, data, c, pinned);
          Ckfree(id);
        case File(addr) =>
          CountsLess(files, byAddr, mapped, data, c, pinned);
          MfpDone(addr);
      }
      data := data - {c};
    }

    /** newstate. */
    method NewState(c: ConnId, target: State, ghost pinned: Option<string>)
      requires c in conns && Sound(pinned)
      modifies this`data, this`files, this`byAddr, this`mapped, this`freed, this`conns
      ensures Sound(pinned) && data == old(data) - {c}
      ensures c !in old(data) ==> files == old(files) && byAddr == old(byAddr) && mapped == old(mapped)
      ensures conns == old(conns)[c := Changed(old(conns)[c], target)]
      ensures freed == old(freed) + (if c in old(data) && old(data)[c].Heap? then {old(data)[c].id} else {})
      ensures forall n :: n in old(files) && pinned == Some(n) ==>
        n in files && files[n].addr == old(files)[n].addr && files[n].len == old(files)[n].len
    {
      hide Owned, Tables, Counts;
      Release(c, pinned);
      var k := conns[c];
      if k.broken {
        return;
      }
      conns := conns[c := Conn(target, k.state != IoDone && (k.started || k.state != target), false, false, false)];
    }

    /** A new connection (server_accept). */
    method Accept(c: ConnId)
      requires Valid() && c !in conns
      modifies this`conns
      ensures Valid() && conns == old(conns)[c := Conn(IoDone, false, false, false, false)]
    {
      hide Owned, Tables, Counts;
      conns := conns[c := Conn(IoDone, false, false, false, false)];
    }

    /** Unameit_Conn_Poll. */
    method Poll(c: ConnId)
      requires Valid() && c in conns
      modifies this`data, this`files, this`byAddr, this`mapped, this`freed, this`conns
      ensures Valid()
      ensures old(conns)[c].broken ==> data == old(data) && conns == old(conns) && freed == old(freed)
      ensures !old(conns)[c].broken ==> data == old(data) - {c} && c in conns && conns == old(conns)[c := conns[c]]
      ensures !old(conns)[c].broken && (old(conns)[c].state == IoDone || InStart(old(conns)[c], Reading)) ==>
        conns[c] == Conn(Reading, false, false, false, false)
      ensures !old(conns)[c].broken && old(conns)[c].state != IoDone && !InStart(old(conns)[c], Reading) ==>
        conns[c] == Conn(Reading, true, false, false, false)
      ensures !old(conns)[c].broken ==>
        freed == old(freed) + (if c in old(data) && old(data)[c].Heap? then {old(data)[c].id} else {})
    {
      hide Owned, Tables, Counts;
      if conns[c].broken {
        return;
      }
      NewState(c, Reading, None);
    }

    /**
     Unameit_Conn_Read: whatever the connection holds is handed to the application, once, and is not
     released any more. All is well exactly if that is not a mapped file, whose count would then stay
     one too high.
     */
    method Read(c: ConnId) returns (b: Option<Buffer>)
      requires Valid() && c in conns
      modifies this`data, this`files, this`byAddr, this`mapped, this`freed, this`conns, this`app
      ensures freed == old(freed) && files == old(files) && byAddr == old(byAddr) && mapped == old(mapped)
      ensures c in conns && conns == old(conns)[c := conns[c]] && (old(conns)[c].broken ==> conns == old(conns))
      ensures !old(conns)[c].broken && old(conns)[c].state == IoDone ==>
        conns[c] == Conn(IoDone, false, false, false, false)
      ensures !old(conns)[c].broken && old(conns)[c].state != IoDone ==>
        conns[c] == Conn(IoDone, true, false, false, false)
      ensures old(conns)[c].broken ==> b == None && data == old(data) && app == old(app)
      ensures !old(conns)[c].broken ==> b == HeldBy(old(data), c) && data == old(data) - {c}
      ensures b.Some? && b.value.Heap? ==> b.value.id !in old(app) && app == old(app) + {b.value.id}
      ensures !(b.Some? && b.value.Heap?) ==> app == old(app)
      ensures Valid() <==> !(b.Some? && b.value.File?)
      ensures b.Some? && b.value.File? ==> b.value.addr in byAddr && Sound(Some(byAddr[b.value.addr]))
    {
      hide Tables, Counts, Owned;
      if conns[c].broken {
        return None;
      }
      b := HeldBy(data, c);
      ghost var pinned := None;
      if c in data {
        match data[c] {
          case Static =>
            OwnedLess(data, app, freed, next, c);
            CountsOther(files, byAddr, data, c, None);
          case Heap(id) =>
            HandedOver(c);
            app := app + {id};
          case File(addr) =>
            OwnedLess(data, app, freed, next, c);
            StillCounted(c);
            pinned := Some(byAddr[addr]);
        }
        data := data - {c};
      } else {
        assert data - {c} == data;
      }
      assert data - {c} == data;
      NewState(c, IoDone, pinned);
      if pinned.Some? {
        NotBoth(files, byAddr, data, pinned.value);
      }
    }

    /** A holder that just forgets the file leaves its count as it is while the file is handed out. */
    lemma StillCounted(c: ConnId)
      requires Sound(None) && c in data && data[c].File?
      ensures data[c].addr in byAddr && Counts(files, byAddr, data - {c}, Some(byAddr[data[c].addr]))
    {
      var addr := data[c].addr;
      forall n | n in files
        ensures files[n].refcount == |Holders(data - {c}, files[n].addr)| + if n == byAddr[addr] then 1 else 0
      {
        HoldersLess(data, c, files[n].addr);
      }
    }

    lemma NotBoth(files: map<string, Mapped>, byAddr: map<Addr, string>, data: map<ConnId, Buffer>, n: string)
      requires Counts(files, byAddr, data, Some(n))
      ensures !Counts(files, byAddr, data, None)
    {
      hide Holders;
    }

    lemma HandedOver(c: ConnId)
      requires Sound(None) && c in data && data[c].Heap?
      ensures data[c].id !in app && Owned(data - {c}, app + {data[c].id}, freed, next) &&
        Counts(files, byAddr, data - {c}, None)
    {
      hide Tables, Counts;
      CountsOther(files, byAddr, data, c, None);
      forall id: BufId | Held(data, id) && data[c] != Heap(id)
        ensures Held(data - {c}, id)
      {
        var d :| d in data && data[d] == Heap(id);
        assert d in data - {c};
      }
    }

    /** Install a buffer in a connection that holds none. */
    method Install(c: ConnId, b: Buffer, ghost pinned: Option<string>)
      requires c in conns && c !in data && Sound(pinned)
      requires b.Heap? ==> b.id in app
      requires b.File? ==> pinned.Some? && b.addr == files[pinned.value].addr
      requires !b.File? ==> pinned == None
      modifies this`data, this`app
      ensures Sound(None) && data == old(data)[c := b] && app == old(app) - (if b.Heap? then {b.id} else {})
    {
      hide Tables;
      forall id: BufId | Held(data, id)
        ensures Held(data[c := b], id)
      {
        var d :| d in data && data[d] == Heap(id);
        assert d in data[c := b] && data[c := b][d] == Heap(id);
      }
      assert b.Heap? ==> data[c := b][c] == Heap(b.id);
      CountsMore(files, byAddr, mapped, data, c, b, pinned);
      hide Counts;
      data := data[c := b];
      if b.Heap? {
        app := app - {b.id};
      }
    }

    /** ckalloc, for the application. */
    method Ckalloc() returns (id: BufId)
      requires Valid()
      modifies this`app, this`next
      ensures Valid() && id == old(next) && next == id + 1 && id !in old(app) && id !in freed && app == old(app) + {id}
    {
      hide Tables, Counts;
      id := next;
      next := next + 1;
      app := app + {id};
    }

    /** newstate before a write: the old message goes, and any buffer may be installed. */
    method StartWrite(c: ConnId, ghost pinned: Option<string>)
      requires c in conns && Sound(pinned) && Roles(conns, data)
      modifies this`data, this`files, this`byAddr, this`mapped, this`freed, this`conns
      ensures Sound(pinned) && Roles(conns, data) && data == old(data) - {c}
      ensures conns == old(conns)[c := Changed(old(conns)[c], Writing)]
      ensures conns[c].broken || (conns[c].state == Writing && !conns[c].received)
      ensures freed == old(freed) + (if c in old(data) && old(data)[c].Heap? then {old(data)[c].id} else {})
      ensures forall n :: n in old(files) && pinned == Some(n) ==>
        n in files && files[n].addr == old(files)[n].addr && files[n].len == old(files)[n].len
    {
      hide Owned, Tables, Counts;
      NewState(c, Writing, pinned);
    }

    /** Unameit_Conn_Write of a buffer the application owns, or need not own; a volatile one is copied first. */
    method Write(c: ConnId, b: Option<BufId>, volatile: bool)
      requires Valid() && c in conns && (b.Some? ==> b.value in app)
      modifies this
      ensures Valid() && c in data && data == old(data)[c := data[c]] && old(next) <= next
      ensures conns == old(conns)[c := Changed(old(conns)[c], Writing)]
      ensures freed == old(freed) + (if c in old(data) && old(data)[c].Heap? then {old(data)[c].id} else {})
      ensures !volatile && b.Some? ==> data[c] == Heap(b.value) && app == old(app) - {b.value}
      ensures !volatile && b == None ==> data[c] == Static && app == old(app)
      ensures volatile ==> data[c].Heap? && data[c].id >= old(next) && app == old(app)
    {
      hide Owned, Tables, Counts, Roles;
      StartWrite(c, None);
      RolesInstall(conns, data, c);
      if volatile {
        var id := Ckalloc();
        Install(c, Heap(id), None);
      } else if b.Some? {
        Install(c, Heap(b.value), None);
      } else {
        Install(c, Static, None);
      }
    }

    /** Read_File up to its table entry: the file is found or mapped, and pinned by the new count. */
    method Pin(name: string, size: Option<nat>, addr: Addr) returns (ok: bool)
      requires Valid() && addr !in byAddr
      modifies this`files, this`byAddr, this`mapped
      ensures ok <==> name in old(files) || size.Some?
      ensures !ok ==> Valid() && files == old(files) && mapped == old(mapped)
      ensures ok ==> Sound(Some(name)) && name in files && files.Keys == old(files).Keys + {name}
      ensures ok && name in old(files) ==>
        files[name] == old(files)[name].(refcount := old(files)[name].refcount + 1) && mapped == old(mapped)
      ensures ok && name !in old(files) ==>
        files[name] == Mapped(addr, size.value, 1) && mapped == old(mapped) + (if size.value != 0 then {addr} else {})
    {
      hide Owned, Tables, Counts, Roles;
      if name !in files {
        if size == None {
          return false;
        }
        PinNew(files, byAddr, mapped, data, name, addr, size.value);
        if size.value != 0 {
          mapped := mapped + {addr};
        }
        files := files[name := Mapped(addr, size.value, 0)];
        byAddr := byAddr[addr := name];
        assert old(mapped) + {} == old(mapped);
        assert files[name := Mapped(addr, size.value, 1)] == old(files)[name := Mapped(addr, size.value, 1)];
      } else {
        PinOld(files, byAddr, mapped, data, name);
      }
      files := files[name := files[name].(refcount := files[name].refcount + 1)];
      ok := true;
    }

    /** Read_File: the connection is made to send the file, which it then holds. */
    method ReadFile(c: ConnId, name: string, size: Option<nat>, addr: Addr) returns (ok: bool)
      requires Valid() && c in conns && addr !in byAddr
      modifies this
      ensures Valid() && app == old(app) && next == old(next) && (!ok ==> conns == old(conns))
      ensures ok ==> conns == old(conns)[c := Changed(old(conns)[c], Writing)]
      ensures ok <==> !old(conns)[c].broken && !Outside(name) && (name in old(files) || size.Some?)
      ensures ok ==> name in files && data == old(data)[c := File(files[name].addr)]
      ensures ok && name !in old(files) ==> files[name].addr == addr && files[name].len == size.value
      ensures ok && name in old(files) ==> files[name].addr == old(files)[name].addr
      ensures !ok ==> data == old(data) && files == old(files) && freed == old(freed)
      ensures ok ==> freed == old(freed) + (if c in old(data) && old(data)[c].Heap? then {old(data)[c].id} else {})
    {
      hide Owned, Tables, Counts, Roles;
      if conns[c].broken || Outside(name) {
        return false;
      }
      ok := Pin(name, size, addr);
      if !ok {
        return;
      }
      StartWrite(c, Some(name));
      RolesInstall(conns, data, c);
      Install(c, File(files[name].addr), Some(name));
    }

    /** What a call to Unameit_Conn_Progress may come to; a refused header or a failed stream breaks the connection. */
    method Progress(c: ConnId, e: Event)
      requires Valid() && c in conns
      modifies this`conns, this`data, this`next
      ensures Valid() && app == old(app) && old(next) <= next
      ensures var k := old(conns)[c];
        if e == HeaderIn && !k.broken && k.state == Reading && !k.headerDone
        then c !in old(data) && data == old(data)[c := Heap(old(next))]
        else data == old(data)
      ensures conns == old(conns)[c := Moved(old(conns)[c], e)]
      ensures files == old(files) && byAddr == old(byAddr) && mapped == old(mapped)
    {
      hide Tables, Counts, Owned, Roles;
      var k := conns[c];
      RoleOf(conns, data, c);
      if k.broken {
        return;
      }
      var k' := k;
      if k.state != Reading && k.state != Writing {
        k' := k.(broken := true);
      } else {
        match e {
          case Partial =>
            k' := k.(started := true);
          case HeaderIn =>
            k' := k.(started := true, headerDone := true);
            if k.state == Reading && !k.headerDone {
              RolesAllocate(conns, data, c, next, k');
              Allocate(c);
              conns := conns[c := k'];
              return;
            }
          case Finish =>
            if k.state == Writing || k.headerDone {
              k' := k.(state := IoDone, received := k.state == Reading);
            }
          case Failure =>
            k' := k.(broken := true);
          case EndOfStream =>
            k' := if k.state == Reading && !k.started then k.(state := Eof) else k.(broken := true);
        }
      }
      RolesChange(conns, data, c, k');
      conns := conns[c := k'];
    }

    lemma RoleOf(conns: map<ConnId, Conn>, data: map<ConnId, Buffer>, c: ConnId)
      requires Roles(conns, data) && c in conns
      ensures Role(conns[c], HeldBy(data, c))
    {
    }

    /** alloc_data: a buffer for the message that is coming in. */
    method Allocate(c: ConnId)
      requires c in conns && c !in data && Sound(None)
      modifies this`data, this`next
      ensures Sound(None) && data == old(data)[c := Heap(old(next))] && next == old(next) + 1
    {
      hide Tables;
      forall id: BufId | Held(data, id)
        ensures Held(data[c := Heap(next)], id)
      {
        var d :| d in data && data[d] == Heap(id);
        assert d in data[c := Heap(next)] && data[c := Heap(next)][d] == Heap(id);
      }
      assert data[c := Heap(next)][c] == Heap(next);
      CountsMore(files, byAddr, mapped, data, c, Heap(next), None);
      hide Counts;
      data := data[c := Heap(next)];
      next := next + 1;
    }

    /** Unameit_Conn_Reap: the connection goes, and with it whatever it held. */
    method Reap(c: ConnId)
      requires Valid() && c in conns
      modifies this
      ensures Valid() && conns == old(conns) - {c} && data == old(data) - {c} && app == old(app) && next == old(next)
      ensures freed == old(freed) + (if c in old(data) && old(data)[c].Heap? then {old(data)[c].id} else {})
    {
      hide Owned, Tables, Counts;
      NewState(c, IoDone, None);
      conns := conns - {c};
    }

    /**
     Over any run of operations every buffer keeps one owner, and every file the count of its holders;
     once all connections are gone no file is mapped, and every buffer is freed or the application's.
     */
    method RunAll(ops: seq<Op>) returns (ghost trace: seq<View>)
      requires Valid()
      modifies this
      ensures Valid() && old(freed) <= freed && old(next) <= next && conns.Keys == ConnsAfter(old(conns).Keys, ops)
      ensures Trace(ops, trace) && |trace| == |ops| + 1 && trace[0] == old(ViewOf()) && trace[|ops|] == ViewOf()
      ensures ConnsAfter(old(conns).Keys, ops) == {} ==>
        files == map[] && mapped == {} && forall id: BufId :: id < next ==> id in freed || id in app
    {
      hide Valid, OpStep;
      var i := 0;
      trace := [ViewOf()];
      while i < |ops|
        invariant 0 <= i <= |ops| && Valid() && old(freed) <= freed && old(next) <= next &&
          conns.Keys == ConnsAfter(old(conns).Keys, ops[..i])
        invariant |trace| == i + 1 && Trace(ops, trace) && trace[0] == old(ViewOf()) && trace[i] == ViewOf()
      {
        assert ops[..i + 1][..i] == ops[..i];
        Step(ops[i]);
        TraceMore(ops, trace, ViewOf());
        trace := trace + [ViewOf()];
        i := i + 1;
      }
      assert ops[..i] == ops;
      if conns.Keys == {} {
        assert conns == map[];
        forall id: BufId
          ensures files == map[] && mapped == {} && (id < next ==> id in freed || id in app)
        {
          NothingLeft(id);
        }
        NothingLeft(0);
      }
    }

    predicate HoldsFile(c: ConnId)
      requires c in conns
      reads this`conns, this`data
    {
      !conns[c].broken && c in data && data[c].File?
    }

    ghost function ViewOf(): View
      reads this
    {
      View(conns, data, app, freed)
    }

    /** Nobody has a buffer that has not been allocated. */
    lemma Beyond()
      requires Valid()
      ensures forall id: BufId :: id >= next ==> Unused(ViewOf(), id)
    {
      hide Tables, Counts, Roles;
    }

    /** One operation, if it makes sense in the current state. */
    method Step(op: Op)
      requires Valid()
      modifies this
      ensures Valid() && old(freed) <= freed && old(next) <= next && conns.Keys == ConnsAfterOne(old(conns).Keys, op)
      ensures OpStep(old(ViewOf()), op, ViewOf())
    {
      hide Valid, Holders, Outside, Moved, Unused;
      Beyond();
      match op {
        case OpAccept(c) => if c !in conns { Accept(c); }
        case OpPoll(c) => if c in conns { Poll(c); }
        case OpRead(c) => if c in conns && !HoldsFile(c) { var _ := Read(c); }
        case OpWrite(c, b, volatile) => if c in conns && (b.Some? ==> b.value in app) { Write(c, b, volatile); }
        case OpReadFile(c, name, size, addr) =>
          MappedWhileHeld(addr);
          if c in conns && addr !in byAddr { var _ := ReadFile(c, name, size, addr); }
        case OpProgress(c, e) => if c in conns { Progress(c, e); }
        case OpReap(c) => if c in conns { Reap(c); }
      }
    }

    /** A file is in the tables, and mapped if it is not empty, exactly while some connection holds it. */
    lemma MappedWhileHeld(addr: Addr)
      requires Valid()
      ensures addr in byAddr <==> exists c :: c in data && data[c] == File(addr)
      ensures addr in mapped ==> exists c :: c in data && data[c] == File(addr)
      ensures addr in byAddr && files[byAddr[addr]].len != 0 ==> addr in mapped
    {
      if addr in byAddr {
        var h := Holders(data, addr);
        assert |h| > 0;
        var c :| c in h;
      }
    }

    /** When every connection is gone nothing is left: no file mapped, and every buffer freed or the application's. */
    lemma NothingLeft(id: BufId)
      requires Valid() && conns == map[]
      ensures files == map[] && mapped == {} && (id < next ==> id in freed || id in app)
    {
      assert data == map[];
      assert forall a :: Holders(data, a) == {};
      assert files.Keys == {};
      assert byAddr.Keys == {};
    }
  }

  datatype Event = Partial | HeaderIn | Finish | Failure | EndOfStream

  datatype Op =
    | OpAccept(c: ConnId)
    | OpPoll(c: ConnId)
    | OpRead(c: ConnId)
    | OpWrite(c: ConnId, b: Option<BufId>, volatile: bool)
    | OpReadFile(c: ConnId, name: string, size: Option<nat>, addr: Addr)
    | OpProgress(c: ConnId, e: Event)
    | OpReap(c: ConnId)

  /** No I/O has taken place in this state yet. */
  predicate InStart(k: Conn, state: State) {
    k.state == state && !k.started
  }

  /** The connection after newstate: it is an error to leave a state in the middle of I/O. */
  function Changed(k: Conn, target: State): Conn {
    if k.broken then k else Conn(target, k.state != IoDone && !InStart(k, target), false, false, false)
  }

  /** What an observer sees: the connections with what they hold, and the buffers with the application and freed. */
  datatype View = View(conns: map<ConnId, Conn>, data: map<ConnId, Buffer>, app: set<BufId>, freed: set<BufId>)

  /** The heap buffer a connection holds, if it is one. */
  function HeapOf(v: View, c: ConnId): set<BufId> {
    if c in v.data && v.data[c].Heap? then {v.data[c].id} else {}
  }

  /** The connection changes state and lets go of its buffer, which is released. */
  function LetGo(v: View, c: ConnId, target: State): View
    requires c in v.conns
  {
    v.(conns := v.conns[c := Changed(v.conns[c], target)], data := v.data - {c}, freed := v.freed + HeapOf(v, c))
  }

  /** A buffer nobody has. */
  ghost predicate Unused(v: View, id: BufId) {
    id !in v.app && id !in v.freed && !Held(v.data, id)
  }

  /** What one operation does; one that does not make sense does nothing. */
  ghost predicate OpStep(v: View, op: Op, w: View) {
    match op
    case OpAccept(c) => w == if c in v.conns then v
      else v.(conns := v.conns[c := Conn(IoDone, false, false, false, false)])
    case OpPoll(c) => w == if c !in v.conns || v.conns[c].broken then v else LetGo(v, c, Reading)
    case OpRead(c) =>
      w == if c !in v.conns || v.conns[c].broken || (c in v.data && v.data[c].File?) then v
        else LetGo(v, c, IoDone).(app := v.app + HeapOf(v, c), freed := v.freed)
    case OpWrite(c, b, volatile) =>
      if c !in v.conns || (b.Some? && b.value !in v.app) then w == v
      else
        var u := LetGo(v, c, Writing);
        if volatile then exists id :: Unused(v, id) && w == u.(data := v.data[c := Heap(id)])
        else if b.Some? then w == u.(data := v.data[c := Heap(b.value)], app := v.app - {b.value})
        else w == u.(data := v.data[c := Static])
    case OpReadFile(c, name, size, addr) =>
      if c !in v.conns || v.conns[c].broken || Outside(name) || (exists d :: d in v.data && v.data[d] == File(addr))
      then w == v
      else
        || (size == None && w == v)
        || exists a :: w == LetGo(v, c, Writing).(data := v.data[c := File(a)])
    case OpProgress(c, e) =>
      if c !in v.conns then w == v
      else
        var k := v.conns[c];
        var u := v.(conns := v.conns[c := Moved(k, e)]);
        if e == HeaderIn && !k.broken && k.state == Reading && !k.headerDone
        then exists id :: Unused(v, id) && w == u.(data := v.data[c := Heap(id)])
        else w == u
    case OpReap(c) => w == if c !in v.conns then v else LetGo(v, c, IoDone).(conns := v.conns - {c})
  }

  /** The views before and after each operation of a run. */
  ghost predicate Trace(ops: seq<Op>, trace: seq<View>) {
    && 0 < |trace| <= |ops| + 1
    && forall i :: 0 <= i < |trace| - 1 ==> OpStep(trace[i], ops[i], trace[i + 1])
  }

  lemma TraceMore(ops: seq<Op>, trace: seq<View>, w: View)
    requires Trace(ops, trace) && |trace| <= |ops| && OpStep(trace[|trace| - 1], ops[|trace| - 1], w)
    ensures Trace(ops, trace + [w])
  {
    hide OpStep;
    forall i | 0 <= i < |trace|
      ensures OpStep((trace + [w])[i], ops[i], (trace + [w])[i + 1])
    {
    }
  }

  /** Operations on other connections leave this one and what it holds alone. */
  lemma {:induction false} OthersLeave(ops: seq<Op>, trace: seq<View>, c: ConnId, n: nat)
    requires Trace(ops, trace) && (forall op :: op in ops ==> op.c != c) && n < |trace|
    ensures c in trace[n].conns <==> c in trace[0].conns
    ensures c in trace[0].conns ==> trace[n].conns[c] == trace[0].conns[c]
    ensures HeldBy(trace[n].data, c) == HeldBy(trace[0].data, c)
    decreases n
  {
    hide Changed, Moved, Outside, Unused, HeapOf;
    if n > 0 {
      OthersLeave(ops, trace, c, n - 1);
      assert ops[n - 1] in ops && OpStep(trace[n - 1], ops[n - 1], trace[n - 1 + 1]);
    }
  }

  /**
   A message comes in on an idle connection while others are at work: the application is handed one
   heap buffer, which nobody had before and nobody else has, and the connection is idle again.
   */
  method Receive(s: Server, c: ConnId, first: seq<Op>, second: seq<Op>, third: seq<Op>) returns (id: BufId)
    requires s.Valid() && c in s.conns && !s.conns[c].broken && s.conns[c].state == IoDone
    requires forall op :: op in first || op in second || op in third ==> op.c != c
    modifies s
    ensures s.Valid() && c in s.conns && s.conns[c] == Conn(IoDone, false, false, false, false) && c !in s.data
    ensures id >= old(s.next) && id in s.app && id !in s.freed && !Held(s.data, id)
  {
    hide Server.Valid, Trace;
    s.Poll(c);
    var _ := Undisturbed(s, c, first);
    ghost var next := s.next;
    s.Progress(c, HeaderIn);
    var _ := Undisturbed(s, c, second);
    s.Progress(c, Finish);
    var _ := Undisturbed(s, c, third);
    assert HeldBy(s.data, c) == Some(Heap(next));
    var b := s.Read(c);
    id := b.value.id;
    TheApplications(s, id);
  }

  /** A run of operations on other connections. */
  method Undisturbed(s: Server, c: ConnId, ops: seq<Op>) returns (ghost trace: seq<View>)
    requires s.Valid() && c in s.conns && forall op :: op in ops ==> op.c != c
    modifies s
    ensures s.Valid() && c in s.conns && s.conns[c] == old(s.conns)[c] && HeldBy(s.data, c) == HeldBy(old(s.data), c)
    ensures old(s.next) <= s.next
  {
    hide Server.Valid, Trace;
    trace := s.RunAll(ops);
    OthersLeave(ops, trace, c, |ops|);
  }

  lemma TheApplications(s: Server, id: BufId)
    requires s.Valid() && id in s.app
    ensures id !in s.freed && !Held(s.data, id)
  {
  }

  /** A name that leads out of the server's directory. */
  predicate Outside(name: string) {
    (name != "" && name[0] == '/') || exists i :: 0 <= i < |name| && UpAt(name, i)
  }

  predicate UpAt(name: string, i: nat)
    requires i < |name|
  {
    "../" <= name[i..]
  }

  /** The connection after a call to Unameit_Conn_Progress that comes to this. */
  function Moved(k: Conn, e: Event): Conn {
    if k.broken then k
    else if k.state != Reading && k.state != Writing then k.(broken := true)
    else match e
      case Partial => k.(started := true)
      case HeaderIn => k.(started := true, headerDone := true)
      case Finish => if k.state == Writing || k.headerDone then k.(state := IoDone, received := k.state == Reading)
        else k
      case Failure => k.(broken := true)
      case EndOfStream => if k.state == Reading && !k.started then k.(state := Eof) else k.(broken := true)
  }

  /** A file that has been sent and is then read is mapped for good, with nobody left to release it. */
  method ReadLeaks() returns (s: Server, addr: Addr)
    ensures fresh(s) && addr in s.mapped && addr in s.byAddr && s.byAddr[addr] in s.files &&
      s.files[s.byAddr[addr]].refcount == 1
    ensures s.data == map[] && Holders(s.data, addr) == {} && !s.Valid()
  {
    hide Owned, Counts, Roles;
    s := new Server();
    addr := 7;
    s.Accept(0);
    var ok := s.ReadFile(0, "f", Some(1), addr);
    assert !Outside("f");
    assert s.conns[0].state == Writing;
    s.Progress(0, Finish);
    var b := s.Read(0);
    OnlyPinned(s, addr);
  }

  lemma OnlyPinned(s: Server, addr: Addr)
    requires addr in s.byAddr && s.data == map[] && s.Sound(Some(s.byAddr[addr]))
    ensures s.byAddr[addr] in s.files && s.files[s.byAddr[addr]].refcount == 1 && Holders(s.data, addr) == {}
  {
    assert forall a :: Holders(s.data, a) == {};
  }

  function ConnsAfterOne(conns: set<ConnId>, op: Op): set<ConnId> {
    match op
    case OpAccept(c) => conns + {c}
    case OpReap(c) => conns - {c}
    case _ => conns
  }

  /** The connections after a run. */
  function ConnsAfter(conns: set<ConnId>, ops: seq<Op>): set<ConnId> {
    if ops == [] then conns else ConnsAfterOne(ConnsAfter(conns, ops[..|ops| - 1]), ops[|ops| - 1])
  }

  /** A connection that is writing, or broken, may hold anything. */
  lemma RolesInstall(conns: map<ConnId, Conn>, data: map<ConnId, Buffer>, c: ConnId)
    requires Roles(conns, data) && c in conns && (conns[c].broken || (conns[c].state == Writing && !conns[c].received))
    ensures forall b {:trigger data[c := b]} :: Roles(conns, data[c := b])
  {
  }

  lemma RolesChange(conns: map<ConnId, Conn>, data: map<ConnId, Buffer>, c: ConnId, k: Conn)
    requires Roles(conns, data) && c in conns && Role(k, HeldBy(data, c))
    ensures Roles(conns[c := k], data)
  {
  }

  lemma RolesAllocate(conns: map<ConnId, Conn>, data: map<ConnId, Buffer>, c: ConnId, id: BufId, k: Conn)
    requires Roles(conns, data) && c in conns && k.state == Reading && k.headerDone
    ensures Roles(conns[c := k], data[c := Heap(id)])
  {
  }

  lemma PinNew(files: map<string, Mapped>, byAddr: map<Addr, string>, mapped: set<Addr>, data: map<ConnId, Buffer>,
      name: string, addr: Addr, len: nat)
    requires Tables(files, byAddr, mapped) && Counts(files, byAddr, data, None) && name !in files && addr !in byAddr
    ensures Tables(files[name := Mapped(addr, len, 1)], byAddr[addr := name], mapped + if len != 0 then {addr} else {})
    ensures Counts(files[name := Mapped(addr, len, 1)], byAddr[addr := name], data, Some(name))
  {
    assert Holders(data, addr) == {};
  }

  lemma PinOld(files: map<string, Mapped>, byAddr: map<Addr, string>, mapped: set<Addr>, data: map<ConnId, Buffer>,
      name: string)
    requires Tables(files, byAddr, mapped) && Counts(files, byAddr, data, None) && name in files
    ensures Tables(files[name := files[name].(refcount := files[name].refcount + 1)], byAddr, mapped)
    ensures Counts(files[name := files[name].(refcount := files[name].refcount + 1)], byAddr, data, Some(name))
  {
    hide Holders;
  }

  lemma CountsMore(files: map<string, Mapped>, byAddr: map<Addr, string>, mapped: set<Addr>, data: map<ConnId, Buffer>,
      c: ConnId, b: Buffer, pinned: Option<string>)
    requires Tables(files, byAddr, mapped) && Counts(files, byAddr, data, pinned) && c !in data
    requires if b.File? then pinned.Some? && b.addr == files[pinned.value].addr else pinned == None
    ensures Counts(files, byAddr, data[c := b], None)
  {
    forall n | n in files
      ensures |Holders(data[c := b], files[n].addr)| == |Holders(data, files[n].addr)| + if pinned == Some(n) then 1
        else 0
    {
      HoldersMore(data, c, b, files[n].addr);
    }
  }

  lemma OwnedLess(data: map<ConnId, Buffer>, app: set<BufId>, freed: set<BufId>, next: BufId, c: ConnId)
    requires Owned(data, app, freed, next) && c in data
    ensures data[c].Heap? ==> data[c].id !in freed && Owned(data - {c}, app, freed + {data[c].id}, next)
    ensures !data[c].Heap? ==> Owned(data - {c}, app, freed, next)
  {
    forall id: BufId | Held(data, id) && data[c] != Heap(id)
      ensures Held(data - {c}, id)
    {
      var d :| d in data && data[d] == Heap(id);
      assert d in data - {c};
    }
  }

  lemma CountsOther(files: map<string, Mapped>, byAddr: map<Addr, string>, data: map<ConnId, Buffer>, c: ConnId,
      pinned: Option<string>)
    requires Counts(files, byAddr, data, pinned) && c in data && !data[c].File?
    ensures Counts(files, byAddr, data - {c}, pinned)
  {
    forall n | n in files
      ensures |Holders(data - {c}, files[n].addr)| == |Holders(data, files[n].addr)|
    {
      HoldersLess(data, c, files[n].addr);
    }
  }

  /** A holder lets go: the file stays with one holder fewer, or goes with its last one. */
  lemma CountsLess(files: map<string, Mapped>, byAddr: map<Addr, string>, mapped: set<Addr>, data: map<ConnId, Buffer>,
      c: ConnId, pinned: Option<string>)
    requires Tables(files, byAddr, mapped) && Counts(files, byAddr, data, pinned) && c in data && data[c].File?
    ensures data[c].addr in byAddr && byAddr[data[c].addr] in files && files[byAddr[data[c].addr]].refcount > 0
    ensures var n := byAddr[data[c].addr]; var f := files[n];
      if f.refcount == 1 then pinned != Some(n) && Counts(files - {n}, byAddr - {data[c].addr}, data - {c}, pinned)
      else Counts(files[n := f.(refcount := f.refcount - 1)], byAddr, data - {c}, pinned)
  {
    var n := byAddr[data[c].addr];
    assert c in Holders(data, data[c].addr);
    forall m | m in files
      ensures |Holders(data - {c}, files[m].addr)| == |Holders(data, files[m].addr)| - if m == n then 1 else 0
    {
      HoldersLess(data, c, files[m].addr);
    }
    if files[n].refcount == 1 {
      Lone(data, c);
    }
  }

  lemma Lone(data: map<ConnId, Buffer>, c: ConnId)
    requires c in data && data[c].File? && |Holders(data, data[c].addr)| == 1
    ensures forall d :: d in data && data[d] == data[c] ==> d == c
  {
    var h := Holders(data, data[c].addr);
    assert c in h && |h - {c}| == 0;
    forall d | d in data && data[d] == data[c]
      ensures d == c
    {
      assert d in h && d !in h - {c};
    }
  }
}
