/**
 Finding a vacant subnet of a network in the index (Inet_Auto_NetCmd in libudb/inet.c).
 */
module InetSubnets {
  import opened InetBits
  import opened InetTree
  import opened LongestMatch
  import opened InetItems
  import opened InetCache
  import opened InetIndex
  import opened InetAuto
  import InetSearch

  datatype Outcome = TooSmall | TooBig | Full | Vacant(octets: seq<Octet>, bits: nat)

  /**
   A region of the wanted size inside the network at t: no block is at or below it, and no other
   network's prefix in between.
   */
  ghost predicate Room(place: map<Id, Bits>, listing: seq<Listed>, t: Bits, w: Bits, want: int) {
    && |w| == want && t < w
    && (forall c :: c in place ==> !(w <= place[c]))
    && (forall i :: 0 <= i < |listing| ==> !(t < listing[i].prefix <= w))
  }

  /** A block holds a network exactly if one is listed at its place. */
  lemma MarkedBlock(index: Inet, c: Id)
    requires index.Sound({}) && c in index.place && c in index.nets
    ensures index.nets[c] != [] <==> Carried(index.listing, index.place[c])
  {
    hide Inet.Sound;
    index.Basics({});
    index.ListsOf({}, c);
    var _ := NetsAtFirst(index.listing, index.place[c]);
  }

  ghost function Context(index: Inet, t: Bits, want: nat, marked: set<Id>): Ctx
    requires index.root.Some?
    reads index
  {
    Ctx(index.width, index.root.value, index.shapes, marked, index.place, t, want)
  }

  /** The blocks with a network, and the prefixes of the networks, say the same about a region. */
  lemma RoomIsVacant(index: Inet, t: Bits, want: nat, marked: set<Id>, w: Bits)
    requires index.root.Some? && index.Sound({}) && marked == set c | c in index.nets && index.nets[c] != []
    ensures InetSearch.VacantRegion(Context(index, t, want, marked), w) <==>
      Room(index.place, index.listing, t, w, want)
  {
    hide Inet.Sound;
    index.Basics({});
    forall c | c in index.place
      ensures c in marked <==> Carried(index.listing, index.place[c])
    {
      MarkedBlock(index, c);
    }
    forall i | 0 <= i < |index.listing|
      ensures exists c :: c in index.place && index.place[c] == index.listing[i].prefix
    {
      NetHome(index, i);
    }
  }

  lemma NetHome(index: Inet, i: nat)
    requires index.Sound({}) && i < |index.listing|
    ensures exists c :: c in index.place && index.place[c] == index.listing[i].prefix
  {
    hide Inet.Sound;
    index.Parts({});
    var c := index.HomeOf(index.listing[i].net);
  }

  /** No node and no network of the index lies in a vacant region. */
  lemma RoomIsEmpty(index: Inet, t: Bits, w: Bits, want: int, x: Item)
    requires index.Sound({}) && Room(index.place, index.listing, t, w, want) && x in index.items
    ensures !(w <= index.items[x].at)
  {
    hide Inet.Sound;
    var c := index.HomeOf(x);
  }

  lemma OffMarked(index: Inet, marked: set<Id>, c: Id)
    requires index.Sound({}) && OffBoundary(index.place, index.listing) && marked == set c | c in index.nets &&
      index.nets[c] != []
    requires c in index.place && |index.place[c]| % NSHIFT != 0
    ensures c in marked
  {
    hide Inet.Sound;
    index.Basics({});
    MarkedBlock(index, c);
  }

  lemma NetBlock(index: Inet, net: Item, t: Bits, block: Id)
    requires index.Sound({}) && net in index.items && index.items[net].at == t
    requires block in index.place && index.place[block] <= t && forall c :: c in index.place && index.place[c] <= t ==>
      index.place[c] <= index.place[block]
    ensures index.place[block] == t
  {
    hide Inet.Sound;
    var c := index.HomeOf(net);
    assert index.place[c] <= index.place[block];
  }

  /**
   Inet_Auto_NetCmd, for a network of the index: it answers with a vacant region of the wanted size
   exactly if the network has one.
   */
  method FreeSubnet(index: Inet, net: Item, p: Prefix, want: int) returns (res: Outcome, ghost best: InetBest)
    requires index.Valid() && index.root.Some? && OffBoundary(index.place, index.listing) && ValidPrefix(index.width, p)
    requires net in index.items && index.items[net] == Entity(NetKind, Text(p))
    ensures res == TooSmall <==> want < 0
    ensures res == TooBig <==> want > index.width - 1 && want >= 0
    ensures 0 <= want < index.width ==>
      (res.Vacant? <==> exists w :: Room(index.place, index.listing, Text(p), w, want))
    ensures res.Vacant? ==>
      8 * |res.octets| == index.width && Room(index.place, index.listing, Text(p), BitsOf(res.octets)[..want], want)
    ensures res.Vacant? ==> forall x :: x in index.items ==> !(BitsOf(res.octets)[..want] <= index.items[x].at)
    ensures res.Vacant? ==>
      InetSearch.IsBest(Context(index, Text(p), want, set c | c in index.nets && index.nets[c] != []), best, res.bits,
        BitsOf(res.octets)[..want])
    ensures res.Vacant? ==> p.bits < res.bits <= want && forall w, m ::
      Room(index.place, index.listing, Text(p), w, want) && Measures(p.bits, w, m) ==> res.bits <= m
  {
    hide Inet.Sound, BitsOf, OffBoundary, InetSearch.VacantRegion, InetSearch.IsBest, Room;
    best := NoneBest;
    if want < 0 {
      return TooSmall, best;
    }
    if want > index.width - 1 {
      return TooBig, best;
    }
    var _, block, bits := index.Find(p);
    NetBlock(index, net, Text(p), block);
    var buf := new Octet[|p.octets|](i requires 0 <= i < |p.octets| => p.octets[i]);
    assert buf[..] == p.octets;
    var marked := set c | c in index.nets && index.nets[c] != [];
    ghost var x := Context(index, Text(p), want, marked);
    Prepared(index, p, marked, want, block);
    forall w
      ensures InetSearch.VacantRegion(x, w) <==> Room(index.place, index.listing, Text(p), w, want)
    {
      RoomIsVacant(index, Text(p), want, marked, w);
    }
    var found, count := InetSearch.AutoSubnet(x, index.shapes, marked, want, p.bits, buf, block);
    best := found;
    res := if found == NoneBest then Full else Vacant(buf[..], count);
    if res.Vacant? {
      LeastRoom(x, found, count, BitsOf(res.octets)[..want]);
      forall x | x in index.items
        ensures !(BitsOf(res.octets)[..want] <= index.items[x].at)
      {
        RoomIsEmpty(index, Text(p), BitsOf(res.octets)[..want], want, x);
      }
    }
  }

  lemma LeastRoom(x: Ctx, r: InetBest, bits: nat, now: Bits)
    requires InetSearch.IsBest(x, r, bits, now)
    ensures |x.base| < bits <= x.want
    ensures forall w, m :: InetSearch.VacantRegion(x, w) && Measures(|x.base|, w, m) ==> bits <= m
  {
    hide InetSearch.VacantRegion, Measures;
  }

  lemma Prepared(index: Inet, p: Prefix, marked: set<Id>, want: nat, block: Id)
    requires index.root.Some? && index.Sound({}) && OffBoundary(index.place, index.listing) &&
      ValidPrefix(index.width, p) && want < index.width
    requires marked == set c | c in index.nets && index.nets[c] != []
    requires block in index.place && index.place[block] == Text(p)
    ensures var x := Context(index, Text(p), want, marked);
      && InetSearch.Seen(x, index.shapes, marked, want, p.bits, |p.octets|) && Tree(x.width, x.root, x.shapes, x.place)
      && (forall c :: c in x.place && |x.place[c]| % NSHIFT != 0 ==> c in x.marked)
      && x.base <= BitsOf(p.octets)
  {
    hide Inet.Sound, OffBoundary, Tree;
    index.Parts({});
    forall c | c in index.place && |index.place[c]| % NSHIFT != 0
      ensures c in marked
    {
      OffMarked(index, marked, c);
    }
  }
}
