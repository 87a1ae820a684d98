/** The sketch's state and its keyboard handler: typing places a glyph by a
    constrained random walk, Backspace removes the newest glyph, and Enter
    toggles between laying the glyphs out in rows and clearing the canvas. */
module Walker {
  import opened Glyphs
  import opened Layout
  import opened Jump

  /** Step range of a standard jump. */
  const MinStep := 20
  const MaxStep := 35
  /** Step range of a hyper jump, tried once standard jumps are exhausted. */
  const HyperMin := 100
  const HyperMax := 400
  /** Minimum distance between a new glyph and every glyph already placed. */
  const SafeDistance: nat := 18
  /** Attempts per phase. */
  const MaxAttempts := 50

  /** A key event: the two control keys, a coded key (arrows, modifiers) or a
      character key. */
  datatype Key = Enter | Backspace | Coded | Typed(c: char)

  /** The spot the first clear attempt of a phase finds, trying the draws in
      order: every earlier attempt collided, and None means all of them did. */
  function FirstClear(letters: seq<Glyph>, prev: Glyph, draws: seq<Draw>,
                      width: int, height: int, safe: nat): (r: Option<Point>)
    ensures r.None? <==>
      forall k :: 0 <= k < |draws| ==> !Clear(letters, Target(prev, draws[k], width, height), safe)
    ensures r.Some? ==>
      exists k :: 0 <= k < |draws| && r.value == Target(prev, draws[k], width, height) &&
        forall j :: 0 <= j < k ==> !Clear(letters, Target(prev, draws[j], width, height), safe)
    ensures r.Some? ==> Clear(letters, r.value, safe)
    ensures r.Some? && CanvasFits(width, height) ==> InsideBorder(r.value, width, height)
    decreases |draws|
  {
    if |draws| == 0 then None
    else
      var p := Target(prev, draws[0], width, height);
      if Clear(letters, p, safe) then Some(p)
      else
        var rest := FirstClear(letters, prev, draws[1..], width, height, safe);
        assert forall k :: 1 <= k < |draws| ==> draws[k] == draws[1..][k - 1];
        rest
  }

  /** Where a character key puts its glyph, given the draws of both phases:
      the canvas centre on an empty canvas, otherwise the first clear spot of
      the standard phase, otherwise that of the hyper phase, otherwise nowhere. */
  function Placement(letters: seq<Glyph>, short: seq<Draw>, hyper: seq<Draw>,
                     width: int, height: int): (r: Option<Point>)
    ensures letters == [] ==> r == Some(Point(width / 2, height / 2))
    ensures r.Some? ==> Clear(letters, r.value, SafeDistance)
    ensures r.Some? && CanvasFits(width, height) ==> InsideBorder(r.value, width, height)
    ensures r.None? <==>
      && letters != []
      && (forall k :: 0 <= k < |short| ==>
            !Clear(letters, Target(letters[|letters| - 1], short[k], width, height), SafeDistance))
      && (forall k :: 0 <= k < |hyper| ==>
            !Clear(letters, Target(letters[|letters| - 1], hyper[k], width, height), SafeDistance))
  {
    if letters == [] then Some(Point(width / 2, height / 2))
    else
      var prev := letters[|letters| - 1];
      var first := FirstClear(letters, prev, short, width, height, SafeDistance);
      if first.Some? then first
      else FirstClear(letters, prev, hyper, width, height, SafeDistance)
  }

  /** On a non-empty canvas the standard phase is tried first and the hyper
      phase only when every standard attempt collides; a spot found is the
      wrapped step of one of the draws from the newest glyph. */
  lemma PlacementByPhase(letters: seq<Glyph>, short: seq<Draw>, hyper: seq<Draw>,
                         width: int, height: int)
    requires letters != []
    ensures
      var prev := letters[|letters| - 1];
      var first := FirstClear(letters, prev, short, width, height, SafeDistance);
      var r := Placement(letters, short, hyper, width, height);
      && (first.Some? ==> r == first)
      && (first.None? ==> r == FirstClear(letters, prev, hyper, width, height, SafeDistance))
      && (r.Some? ==>
            (exists k :: 0 <= k < |short| && r.value == Target(prev, short[k], width, height)) ||
            (exists k :: 0 <= k < |hyper| && r.value == Target(prev, hyper[k], width, height)))
  {
  }

  /** The first `settled` glyphs sit at their layout slots; every later glyph
      keeps the safe distance from every older glyph and, on a canvas that
      leaves room for the border, lies between the borders. */
  ghost predicate Layered(letters: seq<Glyph>, settled: nat, width: int, height: int)
  {
    && settled <= |letters|
    && (forall i :: 0 <= i < settled ==> PosOf(letters[i]) == Slot(width, i))
    && (forall j :: settled <= j < |letters| ==> Clear(letters[..j], PosOf(letters[j]), SafeDistance))
    && (CanvasFits(width, height) ==>
          forall j :: settled <= j < |letters| ==> InsideBorder(PosOf(letters[j]), width, height))
  }

  /** Appending a glyph that is clear of all others and inside the border
      keeps the layering. */
  lemma LayeredAppend(letters: seq<Glyph>, settled: nat, width: int, height: int, g: Glyph)
    requires Layered(letters, settled, width, height)
    requires Clear(letters, PosOf(g), SafeDistance)
    requires CanvasFits(width, height) ==> InsideBorder(PosOf(g), width, height)
    ensures Layered(letters + [g], settled, width, height)
  {
    var grown := letters + [g];
    assert grown[..|letters|] == letters;
    assert forall j :: 0 <= j < |letters| ==> grown[..j] == letters[..j];
  }

  /** Dropping the newest glyph keeps the layering, with the laid-out prefix
      cut to the new length. */
  lemma LayeredDropLast(letters: seq<Glyph>, settled: nat, width: int, height: int)
    requires Layered(letters, settled, width, height)
    requires letters != []
    ensures
      var shorter := letters[..|letters| - 1];
      Layered(shorter, if settled > |shorter| then |shorter| else settled, width, height)
  {
    var shorter := letters[..|letters| - 1];
    assert forall j :: 0 <= j < |shorter| ==> shorter[..j] == letters[..j];
  }

  /** A freshly laid-out list is layered with all of it settled. */
  lemma LayeredOrganized(gs: seq<Glyph>, width: int, height: int)
    ensures Layered(Organized(gs, width), |gs|, width, height)
  {
  }

  class Sketch {
    const width: int
    const height: int
    /** The placed glyphs, oldest first. */
    var letters: seq<Glyph>
    /** Whether the last Enter laid the glyphs out (the next Enter clears). */
    var isOrganized: bool
    /** Where the last successful attempt landed. */
    var tempX: int
    var tempY: int
    /** How many of the oldest glyphs still sit where the last layout pass put
        them; every glyph after them was placed by a key press. */
    ghost var settled: nat

    /** The glyphs are layered as `Layered` says, and an organized canvas is
        laid out entirely. */
    ghost predicate Valid()
      reads this
    {
      && Layered(letters, settled, width, height)
      && (isOrganized ==> settled == |letters|)
    }

    /** The sketch as it starts: an empty canvas of the given size. */
    constructor (width: int, height: int)
      ensures Valid()
      ensures this.width == width && this.height == height
      ensures letters == [] && !isOrganized && tempX == 0 && tempY == 0
    {
      this.width, this.height := width, height;
      letters, isOrganized := [], false;
      tempX, tempY := 0, 0;
      settled := 0;
    }

    /** The layout pass: a cursor walks the list, each glyph is moved to it,
        and the cursor advances, wrapping to the next row past MaxWidth. */
    method OrganizeText()
      modifies this`letters
      ensures letters == Organized(old(letters), width)
    {
      var maxWidth := MaxWidth(width);
      var cursorX, cursorY := MarginLeft, MarginTop;
      var i := 0;
      while i < |letters|
        invariant 0 <= i <= |letters| == |old(letters)|
        invariant Point(cursorX, cursorY) == Slot(width, i)
        invariant forall k :: 0 <= k < i ==> letters[k] == Organized(old(letters), width)[k]
        invariant forall k :: i <= k < |letters| ==> letters[k] == old(letters)[k]
      {
        SlotStep(width, i);
        letters := letters[i := letters[i].(x := cursorX, y := cursorY)];
        cursorX := cursorX + CharWidth;
        if cursorX > maxWidth {
          cursorX := MarginLeft;
          cursorY := cursorY + LineHeight;
        }
        i := i + 1;
      }
    }

    /** One placement attempt from `prev` with the step drawn in d: on success
        the wrapped candidate is recorded in tempX/tempY. */
    method AttemptJump(prev: Glyph, minDist: int, maxDist: int, safeDist: nat, d: Draw)
      returns (ok: bool)
      requires minDist <= d.magnitude <= maxDist
      modifies this`tempX, this`tempY
      ensures ok == Clear(letters, Target(prev, d, width, height), safeDist)
      ensures ok ==> Point(tempX, tempY) == Target(prev, d, width, height)
      ensures !ok ==> tempX == old(tempX) && tempY == old(tempY)
    {
      var distance := d.magnitude * d.direction;
      var cx, cy;
      if d.axis == AxisX {
        cx, cy := prev.x + distance, prev.y;
      } else {
        cx, cy := prev.x, prev.y + distance;
      }

      if cx > width - Border { cx := Border; }
      if cx < Border { cx := width - Border; }
      if cy > height - Border { cy := Border; }
      if cy < Border { cy := height - Border; }

      var k := 0;
      while k < |letters|
        invariant 0 <= k <= |letters|
        invariant forall j :: 0 <= j < k ==> DistSq(Point(cx, cy), letters[j]) >= safeDist * safeDist
      {
        if DistSq(Point(cx, cy), letters[k]) < safeDist * safeDist {
          return false;
        }
        k := k + 1;
      }

      tempX, tempY := cx, cy;
      return true;
    }

    /** One retry phase: up to MaxAttempts jumps from prev with step lengths in
        [minDist, maxDist], stopping at the first that lands clear. */
    method JumpPhase(prev: Glyph, minDist: int, maxDist: int, draws: seq<Draw>)
      returns (validSpotFound: bool, candidateX: int, candidateY: int)
      requires |draws| == MaxAttempts
      requires forall k :: 0 <= k < |draws| ==> minDist <= draws[k].magnitude <= maxDist
      modifies this`tempX, this`tempY
      ensures validSpotFound <==> FirstClear(letters, prev, draws, width, height, SafeDistance).Some?
      ensures validSpotFound ==>
        FirstClear(letters, prev, draws, width, height, SafeDistance) == Some(Point(candidateX, candidateY))
      ensures validSpotFound ==> tempX == candidateX && tempY == candidateY
      ensures !validSpotFound ==> tempX == old(tempX) && tempY == old(tempY)
    {
      validSpotFound := false;
      candidateX, candidateY := 0, 0;
      var i := 0;
      while i < MaxAttempts
        invariant 0 <= i <= MaxAttempts
        invariant tempX == old(tempX) && tempY == old(tempY)
        invariant forall j :: 0 <= j < i ==>
          !Clear(letters, Target(prev, draws[j], width, height), SafeDistance)
      {
        var ok := AttemptJump(prev, minDist, maxDist, SafeDistance, draws[i]);
        if ok {
          validSpotFound := true;
          candidateX, candidateY := tempX, tempY;
          break;
        }
        i := i + 1;
      }
    }

    /** The search of the character-key branch: the canvas centre when the
        canvas is empty, else a standard phase, then, if that found nothing, a
        hyper phase. */
    method FindSpot(short: seq<Draw>, hyper: seq<Draw>)
      returns (validSpotFound: bool, candidateX: int, candidateY: int)
      requires |short| == MaxAttempts && |hyper| == MaxAttempts
      requires forall k :: 0 <= k < |short| ==> MinStep <= short[k].magnitude <= MaxStep
      requires forall k :: 0 <= k < |hyper| ==> HyperMin <= hyper[k].magnitude <= HyperMax
      modifies this`tempX, this`tempY
      ensures validSpotFound <==> Placement(letters, short, hyper, width, height).Some?
      ensures validSpotFound ==>
        Placement(letters, short, hyper, width, height) == Some(Point(candidateX, candidateY))
      ensures validSpotFound && letters != [] ==> tempX == candidateX && tempY == candidateY
      ensures !(validSpotFound && letters != []) ==> tempX == old(tempX) && tempY == old(tempY)
    {
      if |letters| == 0 {
        candidateX, candidateY := width / 2, height / 2;
        validSpotFound := true;
      } else {
        var prev := letters[|letters| - 1];
        ghost var first := FirstClear(letters, prev, short, width, height, SafeDistance);
        ghost var second := FirstClear(letters, prev, hyper, width, height, SafeDistance);
        assert Placement(letters, short, hyper, width, height) == if first.Some? then first else second;
        validSpotFound, candidateX, candidateY := JumpPhase(prev, MinStep, MaxStep, short);
        if !validSpotFound {
          validSpotFound, candidateX, candidateY := JumpPhase(prev, HyperMin, HyperMax, hyper);
        }
      }
    }

    /** The keyboard handler. `short` and `hyper` are the draws of the 50
        standard and the 50 hyper attempts a character key may use. */
    method KeyPressed(key: Key, short: seq<Draw>, hyper: seq<Draw>)
      requires Valid()
      requires |short| == MaxAttempts && |hyper| == MaxAttempts
      requires forall k :: 0 <= k < |short| ==> MinStep <= short[k].magnitude <= MaxStep
      requires forall k :: 0 <= k < |hyper| ==> HyperMin <= hyper[k].magnitude <= HyperMax
      modifies this
      ensures Valid()
      ensures key == Enter && old(isOrganized) ==> letters == [] && !isOrganized
      ensures key == Enter && !old(isOrganized) ==>
        letters == Organized(old(letters), width) && isOrganized
      ensures key == Backspace && old(letters) != [] ==>
        letters == old(letters)[..|old(letters)| - 1] && !isOrganized
      ensures (key == Backspace && old(letters) == []) || key == Coded ==>
        letters == old(letters) && isOrganized == old(isOrganized)
      ensures key.Typed? ==> !isOrganized
      ensures key.Typed? ==>
        var p := Placement(old(letters), short, hyper, width, height);
        letters == if p.Some? then old(letters) + [Glyph(key.c, p.value.x, p.value.y)] else old(letters)
      ensures key.Typed? && old(letters) != [] && Placement(old(letters), short, hyper, width, height).Some?
        ==> Some(Point(tempX, tempY)) == Placement(old(letters), short, hyper, width, height)
      ensures !(key.Typed? && old(letters) != [] && Placement(old(letters), short, hyper, width, height).Some?)
        ==> tempX == old(tempX) && tempY == old(tempY)
    {
      if key == Enter {
        if isOrganized {
          letters := [];
          settled := 0;
          isOrganized := false;
        } else {
          LayeredOrganized(letters, width, height);
          OrganizeText();
          settled := |letters|;
          isOrganized := true;
        }
        return;
      }

      if key == Backspace {
        if |letters| > 0 {
          LayeredDropLast(letters, settled, width, height);
          letters := letters[..|letters| - 1];
          if settled > |letters| { settled := |letters|; }
          isOrganized := false;
        }
        return;
      }

      if key == Coded {
        return;
      }

      isOrganized := false;

      var validSpotFound, candidateX, candidateY := FindSpot(short, hyper);
      if validSpotFound {
        LayeredAppend(letters, settled, width, height, Glyph(key.c, candidateX, candidateY));
        letters := letters + [Glyph(key.c, candidateX, candidateY)];
      }
    }
  }
}
