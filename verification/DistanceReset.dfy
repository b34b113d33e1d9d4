/**
 The recent distances start afresh in every metablock, where section 4 of RFC 7932
 carries them on.  These proofs say when a metablock takes the same distances from both.
 */
module DistanceReset {
  import opened Bytes
  import opened BitReading
  import opened Brotli
  import opened Commands
  import opened Distances
  import opened Lz77
  import opened Huffman
  import opened Metablock
  import opened BrotliStream

  // ---- a command up to its copy --------------------------------------------------------------------

  datatype Front = Front(out: seq<byte>, pos: nat, implicit: bool, copy: nat)

  /** Symbol, lengths and literals; nothing here depends on recent distances. */
  function FrontFrom(codes: Codes, buf: seq<byte>, out: seq<byte>, pos: nat, target: nat): Result<Front, MetaError> {
    var (sym, p) :- Symbol(codes.command, buf, pos);
    var c :- Commanded(Decompose(sym));
    var (insert, p) :- Commanded(InsertLengthAt(buf, p, c.insertCode));
    var (copy, p) :- Commanded(CopyLengthAt(buf, p, c.copyCode));
    var (next, p) :- LiteralsFrom(codes.literal, buf, p, out, insert, target);
    Ok(Front(next, p, c.distanceImplicit, copy))
  }

  lemma CommandIsFront(codes: Codes, buf: seq<byte>, st: State, target: nat, window: nat)
    requires |st.out| < target
    ensures CommandFrom(codes, buf, st, target, window)
         == match FrontFrom(codes, buf, st.out, st.pos, target)
            case Err(e) => Err(e)
            case Ok(f) =>
              if |f.out| >= target then Ok(State(f.out, st.slots, f.pos))
              else CopyFrom(codes, buf, State(f.out, st.slots, f.pos), f.implicit, f.copy, target, window)
  {
    hide Symbol, Decompose, InsertLengthAt, CopyLengthAt, LiteralsFrom, CopyFrom;
  }

  // ---- the distance a copy takes --------------------------------------------------------------------

  /** The copy that the command at this state comes to, if it comes to one. */
  function CopyAfter(codes: Codes, buf: seq<byte>, st: State, target: nat): Option<Front> {
    match FrontFrom(codes, buf, st.out, st.pos, target)
    case Ok(f) => if |f.out| < target then Some(f) else None
    case Err(_) => None
  }

  /** The distance a copy takes, if it can be read. */
  function Draw(codes: Codes, buf: seq<byte>, f: Front, slots: Recent): Option<nat> {
    if f.implicit then Some(slots[0])
    else
      match ExplicitAt(codes, buf, State(f.out, slots, f.pos))
      case Ok(d) => Some(d.distance)
      case Err(_) => None
  }

  /** The distances the copies of a metablock take, one after the other. */
  function Draws(codes: Codes, buf: seq<byte>, st: State, target: nat, window: nat): seq<nat>
    requires st.pos <= BitLen(buf)
    decreases target - |st.out|
  {
    if |st.out| >= target || CopyAfter(codes, buf, st, target).None? then []
    else
      match Draw(codes, buf, CopyAfter(codes, buf, st, target).value, st.slots)
      case None => []
      case Some(d) =>
        match CommandFrom(codes, buf, st, target, window)
        case Err(_) => [d]
        case Ok(s) =>
          CommandAdvances(codes, buf, st, target, window);
          [d] + Draws(codes, buf, s, target, window)
  }

  // ---- the recent distances it takes them from --------------------------------------------------------

  /** The place among the recent distances that a copy reads, if it reads one. */
  function PlaceRead(codes: Codes, buf: seq<byte>, f: Front): Option<nat> {
    if f.implicit then Some(0)
    else
      match Symbol(codes.distance, buf, f.pos)
      case Ok((sym, _)) => if sym < 16 then Some(SHORT_CODE_RING_INDEX[sym]) else None
      case Err(_) => None
  }

  /** The copy sets the most recent distance. */
  predicate Sets(codes: Codes, buf: seq<byte>, f: Front) {
    !f.implicit && match Symbol(codes.distance, buf, f.pos) case Ok((sym, _)) => sym != 0 case Err(_) => false
  }

  /** The places that hold, before a distance is set, what these hold after it. */
  function Older(places: set<nat>): set<nat> {
    set i | i in places && 0 < i < 4 :: i - 1
  }

  /** The places of the starting distances that a metablock reads before it has set them. */
  function Taken(codes: Codes, buf: seq<byte>, st: State, target: nat, window: nat): set<nat>
    requires st.pos <= BitLen(buf)
    decreases target - |st.out|
  {
    if |st.out| >= target || CopyAfter(codes, buf, st, target).None? then {}
    else
      var f := CopyAfter(codes, buf, st, target).value;
      var now := match PlaceRead(codes, buf, f) case Some(i) => {i} case None => {};
      match CommandFrom(codes, buf, st, target, window)
      case Err(_) => now
      case Ok(s) =>
        CommandAdvances(codes, buf, st, target, window);
        var later := Taken(codes, buf, s, target, window);
        now + if Sets(codes, buf, f) then Older(later) else later
  }

  ghost predicate Agree(a: Recent, b: Recent, places: set<nat>) {
    forall i | i in places && i < 4 :: a[i] == b[i]
  }

  lemma AgreeUnion(a: Recent, b: Recent, p: set<nat>, q: set<nat>)
    ensures Agree(a, b, p + q) <==> Agree(a, b, p) && Agree(a, b, q)
  {
  }

  /** After the same distance is set in both, agreement on some places is agreement on the older ones before. */
  lemma AgreePushed(a: Recent, b: Recent, d: nat, places: set<nat>)
    ensures Agree(Pushed(a, d), Pushed(b, d), places) <==> Agree(a, b, Older(places))
  {
    if Agree(Pushed(a, d), Pushed(b, d), places) {
      forall j | j in Older(places) && j < 4
        ensures a[j] == b[j]
      {
        assert j + 1 in places && Pushed(a, d)[j + 1] == Pushed(b, d)[j + 1];
      }
    }
    if Agree(a, b, Older(places)) {
      forall i | i in places && i < 4
        ensures Pushed(a, d)[i] == Pushed(b, d)[i]
      {
        if i > 0 { assert i - 1 in Older(places); }
      }
    }
  }

  lemma ShortTables(sym: nat)
    requires sym < 16
    ensures SHORT_CODE_RING_INDEX[sym] < 4
  {
  }

  // ---- one copy under two lists of recent distances ------------------------------------------------------

  /** Both lists hold the same distance where the copy reads one. */
  ghost predicate ReadsAlike(codes: Codes, buf: seq<byte>, f: Front, a: Recent, b: Recent) {
    match PlaceRead(codes, buf, f) case Some(i) => Agree(a, b, {i}) case None => true
  }

  /** What a copy does apart from the recent distances: its bytes, its bits, and the distance it sets. */
  ghost predicate SameCopy(
      codes: Codes, buf: seq<byte>, f: Front, a: Recent, b: Recent,
      x: Result<State, MetaError>, y: Result<State, MetaError>)
  {
    match (x, y)
    case (Ok(s), Ok(t)) =>
      && s.out == t.out && s.pos == t.pos
      && if Sets(codes, buf, f) then exists d :: s.slots == Pushed(a, d) && t.slots == Pushed(b, d)
         else s.slots == a && t.slots == b
    case (Err(e), Err(e')) => e == e'
    case _ => false
  }

  lemma CopyAlike(codes: Codes, buf: seq<byte>, f: Front, a: Recent, b: Recent, target: nat, window: nat)
    requires |f.out| < target && ReadsAlike(codes, buf, f, a, b)
    ensures Draw(codes, buf, f, a) == Draw(codes, buf, f, b)
    ensures SameCopy(codes, buf, f, a, b,
                     CopyFrom(codes, buf, State(f.out, a, f.pos), f.implicit, f.copy, target, window),
                     CopyFrom(codes, buf, State(f.out, b, f.pos), f.implicit, f.copy, target, window))
  {
    hide SymbolAt, DirectDistanceAt, Copied;
    if f.implicit {
      assert a[0] == b[0];
    } else if Symbol(codes.distance, buf, f.pos).Ok? {
      var (sym, p) := Symbol(codes.distance, buf, f.pos).value;
      if sym < 16 {
        ShortTables(sym);
        assert a[SHORT_CODE_RING_INDEX[sym]] == b[SHORT_CODE_RING_INDEX[sym]];
      }
    }
  }

  /** Where the lists differ at the place read, so do the distances. */
  lemma CopyApart(codes: Codes, buf: seq<byte>, f: Front, a: Recent, b: Recent)
    requires !ReadsAlike(codes, buf, f, a, b) && Draw(codes, buf, f, a).Some?
    ensures Draw(codes, buf, f, a) != Draw(codes, buf, f, b)
  {
    hide SymbolAt, DirectDistanceAt;
    if !f.implicit {
      var (sym, p) := Symbol(codes.distance, buf, f.pos).value;
      ShortTables(sym);
    }
  }

  // ---- whole metablocks ------------------------------------------------------------------------------------

  /** A command that decodes has read its distance. */
  lemma DrawnCopy(codes: Codes, buf: seq<byte>, f: Front, a: Recent, target: nat, window: nat)
    requires |f.out| < target
    requires CopyFrom(codes, buf, State(f.out, a, f.pos), f.implicit, f.copy, target, window).Ok?
    ensures Draw(codes, buf, f, a).Some?
  {
    hide ExplicitAt, Copied;
  }

  /** After the last literals of a metablock nothing is read any more. */
  lemma LastCommand(codes: Codes, buf: seq<byte>, st: State, target: nat, window: nat)
    requires |st.out| < target && CopyAfter(codes, buf, st, target).None?
    ensures match CommandFrom(codes, buf, st, target, window)
            case Ok(s) => |s.out| >= target && s.slots == st.slots
            case Err(_) => true
  {
    hide FrontFrom, CopyFrom, CommandFrom;
    CommandIsFront(codes, buf, st, target, window);
  }

  /** One command under two lists of recent distances. */
  lemma CommandAlike(codes: Codes, buf: seq<byte>, st: State, b: Recent, target: nat, window: nat)
    requires |st.out| < target
    requires match CopyAfter(codes, buf, st, target)
             case Some(f) => ReadsAlike(codes, buf, f, st.slots, b)
             case None => true
    ensures var x := CommandFrom(codes, buf, st, target, window);
            var y := CommandFrom(codes, buf, st.(slots := b), target, window);
            match CopyAfter(codes, buf, st, target)
            case Some(f) => SameCopy(codes, buf, f, st.slots, b, x, y)
            case None => if x.Ok? then y == Ok(x.value.(slots := b)) else y == x
  {
    hide FrontFrom, CopyFrom, CommandFrom, ReadsAlike, SameCopy;
    CommandIsFront(codes, buf, st, target, window);
    CommandIsFront(codes, buf, st.(slots := b), target, window);
    if CopyAfter(codes, buf, st, target).Some? {
      CopyAlike(codes, buf, CopyAfter(codes, buf, st, target).value, st.slots, b, target, window);
    }
  }

  /** The distances and the places of one command, and of the rest. */
  lemma FirstDraw(codes: Codes, buf: seq<byte>, st: State, target: nat, window: nat)
    requires st.pos <= BitLen(buf) && |st.out| < target && CopyAfter(codes, buf, st, target).Some?
    requires CommandFrom(codes, buf, st, target, window).Ok?
    ensures var f, s := CopyAfter(codes, buf, st, target).value, CommandFrom(codes, buf, st, target, window).value;
            && |st.out| < |s.out| && s.pos <= BitLen(buf) && Draw(codes, buf, f, st.slots).Some?
            && Draws(codes, buf, st, target, window)
               == [Draw(codes, buf, f, st.slots).value] + Draws(codes, buf, s, target, window)
            && Taken(codes, buf, st, target, window)
               == (match PlaceRead(codes, buf, f) case Some(i) => {i} case None => {})
                  + (var later := Taken(codes, buf, s, target, window);
                     if Sets(codes, buf, f) then Older(later) else later)
            && BodyFrom(codes, buf, st, target, window) == BodyFrom(codes, buf, s, target, window)
  {
    CommandAdvances(codes, buf, st, target, window);
    CommandIsFront(codes, buf, st, target, window);
    hide FrontFrom, CopyFrom, CommandFrom, PlaceRead, Sets, Older, Draw;
    DrawnCopy(codes, buf, CopyAfter(codes, buf, st, target).value, st.slots, target, window);
  }

  /** The same command under a list that agrees where it reads. */
  lemma SecondDraw(codes: Codes, buf: seq<byte>, st: State, b: Recent, target: nat, window: nat) returns (t: State)
    requires st.pos <= BitLen(buf) && |st.out| < target && CopyAfter(codes, buf, st, target).Some?
    requires CommandFrom(codes, buf, st, target, window).Ok?
    requires ReadsAlike(codes, buf, CopyAfter(codes, buf, st, target).value, st.slots, b)
    ensures var f, s := CopyAfter(codes, buf, st, target).value, CommandFrom(codes, buf, st, target, window).value;
            && SameCopy(codes, buf, f, st.slots, b, Ok(s), Ok(t)) && t == s.(slots := t.slots)
            && s.pos <= BitLen(buf) && Draw(codes, buf, f, st.slots).Some?
            && Draws(codes, buf, st.(slots := b), target, window)
               == [Draw(codes, buf, f, st.slots).value] + Draws(codes, buf, t, target, window)
            && BodyFrom(codes, buf, st.(slots := b), target, window) == BodyFrom(codes, buf, t, target, window)
  {
    var f := CopyAfter(codes, buf, st, target).value;
    CommandAlike(codes, buf, st, b, target, window);
    CopyAlike(codes, buf, f, st.slots, b, target, window);
    t := CommandFrom(codes, buf, st.(slots := b), target, window).value;
    assert CopyAfter(codes, buf, st.(slots := b), target) == Some(f);
    hide CopyAfter, CommandFrom, CopyFrom, ReadsAlike, Draw, Sets, PlaceRead;
    FirstDraw(codes, buf, st, target, window);
    FirstDraw(codes, buf, st.(slots := b), target, window);
  }

  /** A metablock that ends in literals. */
  lemma LastCommands(codes: Codes, buf: seq<byte>, st: State, b: Recent, target: nat, window: nat)
    requires st.pos <= BitLen(buf) && |st.out| < target && CopyAfter(codes, buf, st, target).None?
    requires BodyFrom(codes, buf, st, target, window).Ok?
    ensures Draws(codes, buf, st, target, window) == [] == Draws(codes, buf, st.(slots := b), target, window)
    ensures Taken(codes, buf, st, target, window) == {}
    ensures var x, y := BodyFrom(codes, buf, st, target, window), BodyFrom(codes, buf, st.(slots := b), target, window);
            y.Ok? && y.value.out == x.value.out && y.value.pos == x.value.pos
  {
    hide FrontFrom, CommandFrom;
    CommandAlike(codes, buf, st, b, target, window);
    LastCommand(codes, buf, st, target, window);
    CommandAdvances(codes, buf, st, target, window);
    CommandAdvances(codes, buf, st.(slots := b), target, window);
  }

  /** Agreement where a copy reads and on what is taken later is agreement on what is taken. */
  lemma AgreeStep(codes: Codes, buf: seq<byte>, st: State, b: Recent, y: State, target: nat, window: nat)
    requires st.pos <= BitLen(buf) && |st.out| < target && CopyAfter(codes, buf, st, target).Some?
    requires CommandFrom(codes, buf, st, target, window).Ok?
    requires var f := CopyAfter(codes, buf, st, target).value;
             && ReadsAlike(codes, buf, f, st.slots, b)
             && SameCopy(codes, buf, f, st.slots, b, CommandFrom(codes, buf, st, target, window), Ok(y))
    ensures var s := CommandFrom(codes, buf, st, target, window).value;
            && s.pos <= BitLen(buf)
            && (Agree(st.slots, b, Taken(codes, buf, st, target, window))
                <==> Agree(s.slots, y.slots, Taken(codes, buf, s, target, window)))
  {
    FirstDraw(codes, buf, st, target, window);
    hide CopyAfter, CommandFrom, PlaceRead, Sets, Older, Draw, Draws, Taken, BodyFrom, Agree;
    var f, s := CopyAfter(codes, buf, st, target).value, CommandFrom(codes, buf, st, target, window).value;
    var later := Taken(codes, buf, s, target, window);
    var now := match PlaceRead(codes, buf, f) case Some(i) => {i} case None => {};
    NoPlaces(st.slots, b);
    if Sets(codes, buf, f) {
      var d :| s.slots == Pushed(st.slots, d) && y.slots == Pushed(b, d);
      AgreePushed(st.slots, b, d, later);
      AgreeUnion(st.slots, b, now, Older(later));
    } else {
      AgreeUnion(st.slots, b, now, later);
    }
  }

  lemma NoPlaces(a: Recent, b: Recent)
    ensures Agree(a, b, {})
  {
  }

  /** Places that differ where a copy reads are among those taken. */
  lemma ApartStep(codes: Codes, buf: seq<byte>, st: State, b: Recent, target: nat, window: nat)
    requires st.pos <= BitLen(buf) && |st.out| < target && CopyAfter(codes, buf, st, target).Some?
    requires CommandFrom(codes, buf, st, target, window).Ok?
    requires !ReadsAlike(codes, buf, CopyAfter(codes, buf, st, target).value, st.slots, b)
    ensures !Agree(st.slots, b, Taken(codes, buf, st, target, window))
    ensures Draws(codes, buf, st, target, window) != Draws(codes, buf, st.(slots := b), target, window)
  {
    FirstDraw(codes, buf, st, target, window);
    var f := CopyAfter(codes, buf, st, target).value;
    CopyApart(codes, buf, f, st.slots, b);
    hide FrontFrom, CommandFrom, PlaceRead, Sets, Older, Draw, Taken, BodyFrom;
    assert Draws(codes, buf, st, target, window)[0] == Draw(codes, buf, f, st.slots).value;
  }

  /**
   In a metablock that decodes from one list of recent distances, the copies take the same distances from another
   if and only if the two agree on the places taken; and then it decodes to the same bytes from both.
   */
  lemma {:induction false} SameDraws(codes: Codes, buf: seq<byte>, st: State, b: Recent, target: nat, window: nat)
    requires st.pos <= BitLen(buf) && BodyFrom(codes, buf, st, target, window).Ok?
    ensures Draws(codes, buf, st, target, window) == Draws(codes, buf, st.(slots := b), target, window)
            <==> Agree(st.slots, b, Taken(codes, buf, st, target, window))
    ensures Agree(st.slots, b, Taken(codes, buf, st, target, window)) ==>
              var x := BodyFrom(codes, buf, st, target, window);
              var y := BodyFrom(codes, buf, st.(slots := b), target, window);
              y.Ok? && y.value.out == x.value.out && y.value.pos == x.value.pos
    decreases target - |st.out|
  {
    hide *;
    if |st.out| >= target {
      NothingToDo(codes, buf, st, b, target, window);
    } else if CopyAfter(codes, buf, st, target).None? {
      LastCommands(codes, buf, st, b, target, window);
      NoPlaces(st.slots, b);
    } else {
      CommandDecodes(codes, buf, st, target, window);
      if !ReadsAlike(codes, buf, CopyAfter(codes, buf, st, target).value, st.slots, b) {
        ApartStep(codes, buf, st, b, target, window);
      } else {
        FirstDraw(codes, buf, st, target, window);
        var s := CommandFrom(codes, buf, st, target, window).value;
        var t := SecondDraw(codes, buf, st, b, target, window);
        AgreeStep(codes, buf, st, b, t, target, window);
        SameDraws(codes, buf, s, t.slots, target, window);
        var d := Draw(codes, buf, CopyAfter(codes, buf, st, target).value, st.slots).value;
        SameTails(d, Draws(codes, buf, s, target, window), Draws(codes, buf, t, target, window));
      }
    }
  }

  lemma SameTails<T>(x: T, p: seq<T>, q: seq<T>)
    ensures [x] + p == [x] + q <==> p == q
  {
    assert ([x] + p)[1..] == p && ([x] + q)[1..] == q;
  }

  lemma CommandDecodes(codes: Codes, buf: seq<byte>, st: State, target: nat, window: nat)
    requires st.pos <= BitLen(buf) && |st.out| < target && BodyFrom(codes, buf, st, target, window).Ok?
    ensures CommandFrom(codes, buf, st, target, window).Ok?
  {
    hide CommandFrom;
  }

  lemma NothingToDo(codes: Codes, buf: seq<byte>, st: State, b: Recent, target: nat, window: nat)
    requires st.pos <= BitLen(buf) && |st.out| >= target
    ensures Draws(codes, buf, st, target, window) == [] == Draws(codes, buf, st.(slots := b), target, window)
    ensures Taken(codes, buf, st, target, window) == {} && Agree(st.slots, b, {})
    ensures BodyFrom(codes, buf, st, target, window) == Ok(st)
    ensures BodyFrom(codes, buf, st.(slots := b), target, window) == Ok(st.(slots := b))
  {
  }

  // ---- rings that streams can reach ------------------------------------------------------------------------

  /** Every recent distance is one a copy could take. */
  ghost predicate Near(slots: Recent, window: nat) {
    forall i | 0 <= i < 4 :: 1 <= slots[i] <= window
  }

  lemma CopyKeepsNear(codes: Codes, buf: seq<byte>, f: Front, a: Recent, target: nat, window: nat)
    requires |f.out| < target && Near(a, window)
    requires CopyFrom(codes, buf, State(f.out, a, f.pos), f.implicit, f.copy, target, window).Ok?
    ensures Near(CopyFrom(codes, buf, State(f.out, a, f.pos), f.implicit, f.copy, target, window).value.slots, window)
  {
    hide SymbolAt, DirectDistanceAt, Copied;
  }

  /** A metablock that decodes leaves recent distances within the window, if it starts with such. */
  lemma {:induction false} BodyKeepsNear(codes: Codes, buf: seq<byte>, st: State, target: nat, window: nat)
    requires st.pos <= BitLen(buf) && Near(st.slots, window) && BodyFrom(codes, buf, st, target, window).Ok?
    ensures Near(BodyFrom(codes, buf, st, target, window).value.slots, window)
    decreases target - |st.out|
  {
    hide CommandFrom, CopyFrom, FrontFrom, Near;
    if |st.out| < target {
      CommandAdvances(codes, buf, st, target, window);
      CommandIsFront(codes, buf, st, target, window);
      if CopyAfter(codes, buf, st, target).Some? {
        CopyKeepsNear(codes, buf, CopyAfter(codes, buf, st, target).value, st.slots, target, window);
      }
      BodyKeepsNear(codes, buf, CommandFrom(codes, buf, st, target, window).value, target, window);
    }
  }
}
