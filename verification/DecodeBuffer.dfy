/** The bump allocator that gives each header its own part of one decode buffer. */
module DecodeBuffer {
  import opened Common

  datatype Region = Region(off: nat, len: nat)

  /** `dec` is the decoded size of the latest header; `regions` what each decoded header occupies. */
  datatype Buffer = Buffer(haveXhdr: bool, decodeOff: nat, dec: nat, decoding: bool, regions: seq<Region>)

  const FRESH := Buffer(false, 0, 0, false, [])

  /** A request for room (`again`: for a header that was given some already), or a decode that used `used`
      bytes of the room given. Asking anew while a header is being decoded, or decoding into room not
      given, cannot happen and is a stutter. */
  datatype Event = Prepare(again: bool) | Decoded(used: nat)

  predicate Refuses(size: nat, b: Buffer, again: bool) {
    again || (b.haveXhdr && b.decodeOff + b.dec >= size)
  }

  function Step(size: nat, b: Buffer, e: Event): Buffer {
    match e
    case Prepare(again) =>
      if Refuses(size, b, again) || b.decoding then b
      else b.(haveXhdr := true, decoding := true, decodeOff := if b.haveXhdr then b.decodeOff + b.dec else b.decodeOff)
    case Decoded(used) =>
      if b.decoding && b.decodeOff + used <= size
      then b.(dec := used, decoding := false, regions := b.regions + [Region(b.decodeOff, used)])
      else b
  }

  function After(size: nat, run: Run<Event>): Buffer {
    match run
    case Start => FRESH
    case Then(before, e) => Step(size, After(size, before), e)
  }

  ghost predicate Packed(size: nat, b: Buffer) {
    && b.decodeOff < size
    && (!b.haveXhdr ==> b.decodeOff == 0 && b.regions == [] && !b.decoding)
    && (b.haveXhdr && !b.decoding ==> b.decodeOff + b.dec <= size)
    && (forall i :: 0 <= i < |b.regions| ==>
          b.regions[i].off + b.regions[i].len <= if b.decoding then b.decodeOff else b.decodeOff + b.dec)
    && (forall i, j :: 0 <= i < j < |b.regions| ==> b.regions[i].off + b.regions[i].len <= b.regions[j].off)
  }

  lemma {:induction false} AlwaysPacked(size: nat, run: Run<Event>)
    requires size > 0
    ensures Packed(size, After(size, run))
  {
    if run.Then? {
      AlwaysPacked(size, run.before);
    }
  }

  /** Over any run: the offset stays inside the buffer, every decoded header lies inside it, and no two
      headers overlap. */
  lemma HeadersNeverOverlap(size: nat, run: Run<Event>, i: nat, j: nat)
    requires size > 0 && i < j < |After(size, run).regions|
    ensures var b := After(size, run);
      && b.decodeOff < size
      && b.regions[i].off + b.regions[i].len <= b.regions[j].off
      && b.regions[j].off + b.regions[j].len <= size
  {
    AlwaysPacked(size, run);
  }

  function Used(regions: seq<Region>): nat {
    if regions == [] then 0 else Used(regions[..|regions| - 1]) + regions[|regions| - 1].len
  }

  lemma {:induction false} NothingIsLost(size: nat, run: Run<Event>)
    ensures var b := After(size, run);
      && Used(b.regions) == b.decodeOff + (if b.decoding || !b.haveXhdr then 0 else b.dec)
      && (b.decoding ==> b.haveXhdr)
  {
    if run.Then? {
      NothingIsLost(size, run.before);
      var b := After(size, run.before);
      match run.last
      case Decoded(used) => assert (b.regions + [Region(b.decodeOff, used)])[..|b.regions|] == b.regions;
      case Prepare(_) =>
    }
  }

  /** More room for a header that has some is always refused, and changes nothing. */
  lemma NeverTwice(size: nat, b: Buffer)
    ensures Refuses(size, b, true) && Step(size, b, Prepare(true)) == b
  {
  }

  /** A new header is refused exactly when those before it fill the buffer to the last byte. */
  lemma RefusedExactlyWhenFull(size: nat, run: Run<Event>)
    requires size > 0 && !After(size, run).decoding
    ensures Refuses(size, After(size, run), false) <==> Used(After(size, run).regions) == size
  {
    AlwaysPacked(size, run);
    NothingIsLost(size, run);
  }

  /** The offset never goes back, and decoded headers are never moved. */
  lemma {:induction false} OnlyGrows(size: nat, run: Run<Event>, later: Run<Event>)
    requires Extends(later, run)
    ensures After(size, run).decodeOff <= After(size, later).decodeOff
    ensures After(size, run).regions <= After(size, later).regions
  {
    if later != run {
      OnlyGrows(size, run, later.before);
    }
  }

  class Decoder {
    const decodeBuf: array<char>
    var haveXhdr: bool
    var decodeOff: nat
    var dec: nat
    ghost var decoding: bool
    ghost var regions: seq<Region>

    ghost function View(): Buffer
      reads this
    {
      Buffer(haveXhdr, decodeOff, dec, decoding, regions)
    }

    ghost predicate Valid()
      reads this
    {
      Packed(decodeBuf.Length, View())
    }

    constructor (size: nat)
      requires size > 0
      ensures Valid() && View() == FRESH && decodeBuf.Length == size
    {
      decodeBuf := new char[size];
      haveXhdr, decodeOff, dec, decoding, regions := false, 0, 0, false, [];
    }

    /** interop_server_hset_prepare_decode: the room given, or None. */
    method PrepareDecode(again: bool) returns (room: Option<Region>)
      requires Valid() && (again || !decoding)
      modifies this
      ensures Valid() && View() == Step(decodeBuf.Length, old(View()), Prepare(again))
      ensures room.None? <==> Refuses(decodeBuf.Length, old(View()), again)
      ensures room.Some? ==> room.value == Region(decodeOff, decodeBuf.Length - decodeOff)
      ensures again ==> room.None? && View() == old(View())
      ensures !again ==> (room.None? <==> old(haveXhdr) && old(decodeOff) + old(dec) >= decodeBuf.Length)
    {
      if again {
        return None;
      }
      if haveXhdr {
        if decodeOff + dec >= decodeBuf.Length {
          return None;
        }
        decodeOff := decodeOff + dec;
      } else {
        haveXhdr := true;
      }
      decoding := true;
      return Some(Region(decodeOff, decodeBuf.Length - decodeOff));
    }

    /** The decoder reports how much of the room it used. */
    method SetDecoded(used: nat)
      requires Valid() && decoding && decodeOff + used <= decodeBuf.Length
      modifies this
      ensures Valid() && View() == Step(decodeBuf.Length, old(View()), Decoded(used))
    {
      dec, decoding, regions := used, false, regions + [Region(decodeOff, used)];
    }
  }
}
