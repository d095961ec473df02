/** The JSON-driven auto clicker: click boxes, click events and their text
    form, the validation of an event file's entries, and the screen-bounds
    and button checks of the mouse controller. The JSON file is taken as
    already read: a list of events, each a map from field name to value. */
module Bot {
  import opened Wrappers
  import opened Strings
  import opened Geometry

  /** The `ValueError`s (and the `TypeError`s of comparisons) raised here. */
  datatype BotError =
    | VertexCount(expected: nat, got: nat)
    | MissingField(field: string)
    | BadButton
    | NegativeDelay(field: string)
    | NotComparable(field: string)
    | NotText(field: string)
    | NotPoints(field: string)
    | RowOutOfBounds(x: real)
    | ColumnOutOfBounds(y: real)
    | UnexpectedButton(button: string)

  // ---------------------------------------------------------------------
  // click boxes

  /** A quadrilateral given by its corners. */
  datatype ClickBox = ClickBox(vertices: seq<Vertex>)

  const VertexTotal: nat := 4

  /** `ClickBox(vertices)`: raises unless there are exactly four corners. */
  function NewClickBox(vertices: seq<Vertex>): (r: Result<ClickBox, BotError>)
    ensures r.Ok? <==> |vertices| == VertexTotal
    ensures r.Ok? ==> r.value.vertices == vertices
    ensures r.Err? ==> r.error == VertexCount(VertexTotal, |vertices|)
  {
    if |vertices| != VertexTotal then Err(VertexCount(VertexTotal, |vertices|))
    else Ok(ClickBox(vertices))
  }

  /** `get_rand_point()` samples with `Geometry.GetRandPoint`: every sample
      of a click box lies within the bounding box of its corners, so for the
      unit square both coordinates lie in [0, 1]. */
  lemma RandPointInUnitSquare(coin: real, s: real, t: real)
    requires IsDraw(s) && IsDraw(t)
    ensures var box := NewClickBox([Vertex(0, 0), Vertex(0, 1), Vertex(1, 1), Vertex(1, 0)]);
      && box.Ok?
      && var p := GetRandPoint(box.value.vertices, coin, s, t);
      && 0.0 <= p.x <= 1.0 && 0.0 <= p.y <= 1.0
  {
    var vs := [Vertex(0, 0), Vertex(0, 1), Vertex(1, 1), Vertex(1, 0)];
    RandPointInClickBox(vs, coin, s, t);
    assert MinX(vs) == 0 && MaxX(vs) == 1 && MinY(vs) == 0 && MaxY(vs) == 1;
  }

  /** `f"({v[0]},{v[1]})"`. */
  function VertexString(v: Vertex): string
  {
    "(" + IntToString(v.x) + "," + IntToString(v.y) + ")"
  }

  function VertexStrings(vs: seq<Vertex>): (r: seq<string>)
    ensures |r| == |vs|
    ensures forall i :: 0 <= i < |vs| ==> r[i] == VertexString(vs[i])
  {
    if vs == [] then [] else [VertexString(vs[0])] + VertexStrings(vs[1..])
  }

  /** `ClickBox.__str__`: the corners joined by commas. */
  function ClickBoxString(box: ClickBox): string
  {
    Join(',', VertexStrings(box.vertices))
  }

  /** The pieces the text of a list of corners splits into at its commas:
      "(x" and "y)" for each corner. */
  function HalfParts(vs: seq<Vertex>): (r: seq<string>)
    ensures |r| == 2 * |vs|
  {
    if vs == [] then []
    else ["(" + IntToString(vs[0].x), IntToString(vs[0].y) + ")"] + HalfParts(vs[1..])
  }

  /** Reads back the corners from the pieces of their text. */
  function ParsePairs(parts: seq<string>): Option<seq<Vertex>>
    decreases |parts|
  {
    if |parts| == 0 then Some([])
    else if |parts| == 1 then None
    else
      var a, b := parts[0], parts[1];
      if |a| == 0 || a[0] != '(' || |b| == 0 || b[|b| - 1] != ')' then None
      else
        match (ParseInt(a[1..]), ParseInt(b[..|b| - 1]), ParsePairs(parts[2..]))
        case (Some(x), Some(y), Some(rest)) => Some([Vertex(x, y)] + rest)
        case _ => None
  }

  /** Reads back a click box from its text. */
  function ParseClickBoxString(s: string): Option<seq<Vertex>>
  {
    ParsePairs(Split(s, ','))
  }

  lemma IntToStringCommaFree(n: int)
    ensures ',' !in IntToString(n)
  {
    if n < 0 {
      var d := NatToString(-n);
      assert IntToString(n) == "-" + d;
      assert forall k :: 0 <= k < |d| ==> IsDigit(d[k]);
    }
  }

  lemma {:induction false} HalfPartsCommaFree(vs: seq<Vertex>)
    ensures forall i :: 0 <= i < |HalfParts(vs)| ==> ',' !in HalfParts(vs)[i]
    decreases |vs|
  {
    if vs != [] {
      IntToStringCommaFree(vs[0].x);
      IntToStringCommaFree(vs[0].y);
      HalfPartsCommaFree(vs[1..]);
      var a, b := "(" + IntToString(vs[0].x), IntToString(vs[0].y) + ")";
      assert HalfParts(vs) == [a, b] + HalfParts(vs[1..]);
      assert ',' !in a && ',' !in b;
    }
  }

  lemma VertexStringHalves(v: Vertex)
    ensures VertexString(v) == ("(" + IntToString(v.x)) + [','] + (IntToString(v.y) + ")")
  {
  }

  lemma JoinCons(a: string, rest: seq<string>, sep: char)
    ensures Join(sep, [a] + rest) == if rest == [] then a else a + [sep] + Join(sep, rest)
  {
    assert ([a] + rest)[1..] == rest;
  }

  lemma GlueAssociates(a: string, b: string, j: string, sep: char)
    ensures (a + [sep] + b) + [sep] + j == a + [sep] + (b + [sep] + j)
  {
  }

  /** Gluing a corner's two halves at a separator commutes with joining. */
  lemma JoinGlue(a: string, b: string, strs: seq<string>, rest: seq<string>, sep: char)
    requires |strs| == 0 <==> |rest| == 0
    requires Join(sep, strs) == Join(sep, rest)
    ensures Join(sep, [a + [sep] + b] + strs) == Join(sep, [a] + ([b] + rest))
  {
    JoinCons(a + [sep] + b, strs, sep);
    JoinCons(a, [b] + rest, sep);
    JoinCons(b, rest, sep);
    GlueAssociates(a, b, Join(sep, rest), sep);
  }

  /** The text of a non-empty list of corners is the join of its halves. */
  lemma {:induction false} ClickBoxStringHalves(vs: seq<Vertex>)
    requires |vs| >= 1
    ensures Join(',', VertexStrings(vs)) == Join(',', HalfParts(vs))
    decreases |vs|
  {
    var a, b := "(" + IntToString(vs[0].x), IntToString(vs[0].y) + ")";
    if |vs| > 1 {
      ClickBoxStringHalves(vs[1..]);
    }
    VertexStringsHead(vs);
    HalfPartsHead(vs);
    JoinGlue(a, b, VertexStrings(vs[1..]), HalfParts(vs[1..]), ',');
  }

  lemma VertexStringsHead(vs: seq<Vertex>)
    requires |vs| >= 1
    ensures var a, b := "(" + IntToString(vs[0].x), IntToString(vs[0].y) + ")";
      VertexStrings(vs) == [a + [','] + b] + VertexStrings(vs[1..])
  {
    VertexStringHalves(vs[0]);
  }

  lemma HalfPartsHead(vs: seq<Vertex>)
    requires |vs| >= 1
    ensures var a, b := "(" + IntToString(vs[0].x), IntToString(vs[0].y) + ")";
      HalfParts(vs) == [a] + ([b] + HalfParts(vs[1..]))
  {
  }

  /** The first two pieces of a corner's text read back as that corner. */
  lemma ParsePairsCons(v: Vertex, rest: seq<string>)
    ensures var a, b := "(" + IntToString(v.x), IntToString(v.y) + ")";
      ParsePairs([a, b] + rest) == if ParsePairs(rest).Some? then Some([v] + ParsePairs(rest).value) else None
  {
    var a, b := "(" + IntToString(v.x), IntToString(v.y) + ")";
    var parts := [a, b] + rest;
    assert parts[2..] == rest;
    assert a[1..] == IntToString(v.x);
    assert b[..|b| - 1] == IntToString(v.y);
    ParseIntOfIntToString(v.x);
    ParseIntOfIntToString(v.y);
  }

  lemma {:induction false} ParsePairsOfHalves(vs: seq<Vertex>)
    ensures ParsePairs(HalfParts(vs)) == Some(vs)
    decreases |vs|
  {
    if vs != [] {
      var a, b := "(" + IntToString(vs[0].x), IntToString(vs[0].y) + ")";
      assert HalfParts(vs) == [a, b] + HalfParts(vs[1..]);
      ParsePairsOfHalves(vs[1..]);
      ParsePairsCons(vs[0], HalfParts(vs[1..]));
      assert [vs[0]] + vs[1..] == vs;
    }
  }

  /** The text of a click box determines its corners. */
  lemma ClickBoxStringRoundTrip(box: ClickBox)
    requires |box.vertices| >= 1
    ensures ParseClickBoxString(ClickBoxString(box)) == Some(box.vertices)
  {
    var vs := box.vertices;
    ClickBoxStringHalves(vs);
    HalfPartsCommaFree(vs);
    SplitJoin(HalfParts(vs), ',');
    ParsePairsOfHalves(vs);
  }

  lemma UnitSquareCorners()
    ensures VertexStrings([Vertex(0, 0), Vertex(0, 1), Vertex(1, 1), Vertex(1, 0)])
            == ["(0,0)", "(0,1)", "(1,1)", "(1,0)"]
  {
    assert DigitChar(0) == '0' && DigitChar(1) == '1';
    assert IntToString(0) == "0" && IntToString(1) == "1";
    assert VertexString(Vertex(0, 0)) == "(0,0)" && VertexString(Vertex(0, 1)) == "(0,1)";
    assert VertexString(Vertex(1, 1)) == "(1,1)" && VertexString(Vertex(1, 0)) == "(1,0)";
  }

  lemma JoinFour(a: string, b: string, c: string, d: string, sep: char)
    ensures Join(sep, [a, b, c, d]) == a + [sep] + b + [sep] + c + [sep] + d
  {
    JoinCons(c, [d], sep);
    JoinCons(b, [c, d], sep);
    JoinCons(a, [b, c, d], sep);
    assert [c] + [d] == [c, d] && [b] + [c, d] == [b, c, d] && [a] + [b, c, d] == [a, b, c, d];
    assert Join(sep, [d]) == d;
  }

  /** The unit square prints as "(0,0),(0,1),(1,1),(1,0)". */
  lemma UnitSquareString()
    ensures ClickBoxString(ClickBox([Vertex(0, 0), Vertex(0, 1), Vertex(1, 1), Vertex(1, 0)]))
            == "(0,0),(0,1),(1,1),(1,0)"
  {
    UnitSquareCorners();
    JoinFour("(0,0)", "(0,1)", "(1,1)", "(1,0)", ',');
    assert "(0,0)" + [','] + "(0,1)" == "(0,0),(0,1)";
    assert "(0,0),(0,1)" + [','] + "(1,1)" == "(0,0),(0,1),(1,1)";
    assert "(0,0),(0,1),(1,1)" + [','] + "(1,0)" == "(0,0),(0,1),(1,1),(1,0)";
  }

  // ---------------------------------------------------------------------
  // click events

  /** `MouseEvent`, with the delays as whole seconds. */
  datatype MouseEvent = MouseEvent(eventId: string, clickBox: ClickBox, button: string, minDelay: int, maxDelay: int)

  function EventFields(e: MouseEvent): seq<string>
  {
    [ "id=" + e.eventId,
      "click_box=" + ClickBoxString(e.clickBox),
      "button=" + e.button,
      "min_delay_sec=" + IntToString(e.minDelay),
      "max_delay_sec=" + IntToString(e.maxDelay) ]
  }

  /** `MouseEvent.__str__`: the five `name=value` fields joined by commas. */
  function MouseEventString(e: MouseEvent): string
  {
    Join(',', EventFields(e))
  }

  predicate HasPrefix(s: string, p: string) { |p| <= |s| && s[..|p|] == p }

  /** Reads back an event from its text. */
  function ParseMouseEventString(s: string): Option<MouseEvent>
  {
    ParseEventParts(Split(s, ','))
  }

  /** Reads back an event from the pieces of its text: the first piece is
      the id, the last three the button and the delays, and the click box is
      what lies between. */
  function ParseEventParts(parts: seq<string>): Option<MouseEvent>
  {
    if |parts| < 6 then None
    else
      var n := |parts|;
      var first, mid := parts[0], parts[1..n - 3];
      var button, low, high := parts[n - 3], parts[n - 2], parts[n - 1];
      if !HasPrefix(first, "id=") || !HasPrefix(mid[0], "click_box=") || !HasPrefix(button, "button=")
         || !HasPrefix(low, "min_delay_sec=") || !HasPrefix(high, "max_delay_sec=") then None
      else
        match (ParsePairs([mid[0][10..]] + mid[1..]), ParseInt(low[14..]), ParseInt(high[14..]))
        case (Some(vs), Some(lo), Some(hi)) => Some(MouseEvent(first[3..], ClickBox(vs), button[7..], lo, hi))
        case _ => None
  }

  lemma {:induction false} JoinAppend(xs: seq<string>, ys: seq<string>, sep: char)
    requires |xs| >= 1 && |ys| >= 1
    ensures Join(sep, xs + ys) == Join(sep, xs) + [sep] + Join(sep, ys)
    decreases |xs|
  {
    assert (xs + ys)[0] == xs[0];
    if |xs| == 1 {
      assert (xs + ys)[1..] == ys;
    } else {
      assert (xs + ys)[1..] == xs[1..] + ys;
      JoinAppend(xs[1..], ys, sep);
    }
  }

  lemma JoinPrefixFirst(p: string, ys: seq<string>, sep: char)
    requires |ys| >= 1
    ensures Join(sep, [p + ys[0]] + ys[1..]) == p + Join(sep, ys)
  {
    var zs := [p + ys[0]] + ys[1..];
    assert zs[1..] == ys[1..];
  }

  /** The pieces an event's text splits into at its commas. */
  function EventParts(e: MouseEvent): seq<string>
  {
    var hp := HalfParts(e.clickBox.vertices);
    if hp == [] then []
    else
      ["id=" + e.eventId] + (["click_box=" + hp[0]] + hp[1..])
      + ["button=" + e.button, "min_delay_sec=" + IntToString(e.minDelay), "max_delay_sec=" + IntToString(e.maxDelay)]
  }

  /** Joining the pieces with the click box's halves glued back together
      gives the join of the five fields. */
  lemma JoinFields(first: string, prefix: string, hp: seq<string>, box: string, c: seq<string>, sep: char)
    requires |hp| >= 1 && |c| >= 1
    requires Join(sep, hp) == box
    ensures Join(sep, [first] + ([prefix + hp[0]] + hp[1..]) + c) == Join(sep, [first, prefix + box] + c)
  {
    var b := [prefix + hp[0]] + hp[1..];
    JoinPrefixFirst(prefix, hp, sep);
    JoinAppend([first] + b, c, sep);
    JoinAppend([first], b, sep);
    assert [first, prefix + box] + c == [first] + ([prefix + box] + c);
    JoinCons(first, [prefix + box] + c, sep);
    JoinCons(prefix + box, c, sep);
    GlueAssociates(first, prefix + box, Join(sep, c), sep);
  }

  lemma EventPartsJoin(e: MouseEvent)
    requires |e.clickBox.vertices| >= 1
    ensures Join(',', EventParts(e)) == MouseEventString(e)
  {
    var vs := e.clickBox.vertices;
    var hp := HalfParts(vs);
    var c := ["button=" + e.button, "min_delay_sec=" + IntToString(e.minDelay), "max_delay_sec=" + IntToString(e.maxDelay)];
    ClickBoxStringHalves(vs);
    JoinFields("id=" + e.eventId, "click_box=", hp, ClickBoxString(e.clickBox), c, ',');
    assert EventFields(e) == ["id=" + e.eventId, "click_box=" + ClickBoxString(e.clickBox)] + c;
  }

  lemma EventPartsSplit(e: MouseEvent)
    requires |e.clickBox.vertices| >= 1
    requires ',' !in e.eventId && ',' !in e.button
    ensures Split(MouseEventString(e), ',') == EventParts(e)
  {
    EventPartsCommaFree(e);
    EventPartsJoin(e);
    SplitJoin(EventParts(e), ',');
  }

  /** No piece of an event's text holds a comma when its id and button do not. */
  lemma EventPartsCommaFree(e: MouseEvent)
    requires |e.clickBox.vertices| >= 1
    requires ',' !in e.eventId && ',' !in e.button
    ensures forall i :: 0 <= i < |EventParts(e)| ==> ',' !in EventParts(e)[i]
  {
    var hp := HalfParts(e.clickBox.vertices);
    HalfPartsCommaFree(e.clickBox.vertices);
    IntToStringCommaFree(e.minDelay);
    IntToStringCommaFree(e.maxDelay);
    var first := "id=" + e.eventId;
    var c := ["button=" + e.button, "min_delay_sec=" + IntToString(e.minDelay), "max_delay_sec=" + IntToString(e.maxDelay)];
    ConcatCommaFree("id=", e.eventId);
    ConcatCommaFree("click_box=", hp[0]);
    ConcatCommaFree("button=", e.button);
    ConcatCommaFree("min_delay_sec=", IntToString(e.minDelay));
    ConcatCommaFree("max_delay_sec=", IntToString(e.maxDelay));
    PiecesCommaFree(first, "click_box=" + hp[0], hp, c);
  }

  lemma ConcatCommaFree(a: string, b: string)
    requires ',' !in a && ',' !in b
    ensures ',' !in a + b
  {
  }

  /** The pieces list of an event is comma-free when each of its parts is. */
  lemma PiecesCommaFree(first: string, head: string, hp: seq<string>, c: seq<string>)
    requires |hp| >= 1
    requires ',' !in first && ',' !in head
    requires forall i :: 0 <= i < |hp| ==> ',' !in hp[i]
    requires forall i :: 0 <= i < |c| ==> ',' !in c[i]
    ensures var parts := [first] + ([head] + hp[1..]) + c;
      forall i :: 0 <= i < |parts| ==> ',' !in parts[i]
  {
    var parts := [first] + ([head] + hp[1..]) + c;
    forall i | 0 <= i < |parts| ensures ',' !in parts[i] {
      if i == 0 {
      } else if i == 1 {
      } else if i < |hp| + 1 {
        assert parts[i] == hp[i - 1];
      } else {
        assert parts[i] == c[i - |hp| - 1];
      }
    }
  }

  lemma ParseEventPartsOf(e: MouseEvent)
    requires |e.clickBox.vertices| >= 1
    ensures ParseEventParts(EventParts(e)) == Some(e)
  {
    var vs := e.clickBox.vertices;
    var hp := HalfParts(vs);
    var parts := EventParts(e);
    var n := |parts|;
    var mid := parts[1..n - 3];
    assert mid == ["click_box=" + hp[0]] + hp[1..];
    assert [mid[0][10..]] + mid[1..] == hp;
    ParsePairsOfHalves(vs);
    assert parts[0][3..] == e.eventId;
    assert parts[n - 3][7..] == e.button;
    assert parts[n - 2][14..] == IntToString(e.minDelay);
    assert parts[n - 1][14..] == IntToString(e.maxDelay);
    ParseIntOfIntToString(e.minDelay);
    ParseIntOfIntToString(e.maxDelay);
  }

  /** The text of an event determines the event, when neither its id nor
      its button contains a comma. */
  lemma MouseEventStringRoundTrip(e: MouseEvent)
    requires |e.clickBox.vertices| >= 1
    requires ',' !in e.eventId && ',' !in e.button
    ensures ParseMouseEventString(MouseEventString(e)) == Some(e)
  {
    EventPartsSplit(e);
    ParseEventPartsOf(e);
  }

  // ---------------------------------------------------------------------
  // reading the events

  /** A JSON value as the event fields use it. */
  datatype Value = Text(s: string) | Number(n: int) | Points(vs: seq<Vertex>) | OtherValue

  /** One entry of the `events` array. */
  type Event = map<string, Value>

  const RequiredFields: seq<string> := ["id", "click_box", "button", "min_delay_sec", "max_delay_sec"]

  /** The first of `fields` the event lacks. */
  function FirstMissing(fields: seq<string>, event: Event): (r: Option<string>)
    ensures r.None? <==> forall i :: 0 <= i < |fields| ==> fields[i] in event
    ensures r.Some? ==> exists k :: 0 <= k < |fields| && fields[k] == r.value && r.value !in event
                                    && forall j :: 0 <= j < k ==> fields[j] in event
  {
    if fields == [] then None
    else if fields[0] !in event then Some(fields[0])
    else
      var r := FirstMissing(fields[1..], event);
      assert forall i :: 1 <= i < |fields| ==> fields[i] == fields[1..][i - 1];
      if r.Some? then
        var k :| 0 <= k < |fields| - 1 && fields[1..][k] == r.value && r.value !in event
                 && forall j :: 0 <= j < k ==> fields[1..][j] in event;
        assert fields[k + 1] == r.value;
        r
      else r
  }

  /** The event has every required field. */
  predicate HasFields(event: Event)
  {
    forall i :: 0 <= i < |RequiredFields| ==> RequiredFields[i] in event
  }

  lemma FieldsNamed(event: Event)
    ensures HasFields(event) <==>
      "id" in event && "click_box" in event && "button" in event && "min_delay_sec" in event && "max_delay_sec" in event
  {
    assert RequiredFields[0] == "id" && RequiredFields[1] == "click_box" && RequiredFields[2] == "button";
    assert RequiredFields[3] == "min_delay_sec" && RequiredFields[4] == "max_delay_sec";
  }

  /** A delay must be a number and not negative. */
  function CheckDelay(event: Event, field: string): Result<(), BotError>
    requires field in event
  {
    match event[field]
    case Number(n) => if n < 0 then Err(NegativeDelay(field)) else Ok(())
    case _ => Err(NotComparable(field))
  }

  /** `validate_fields`: a missing field (the first, in the order id,
      click_box, button, min_delay_sec, max_delay_sec), then the button,
      then each delay. */
  function Validate(event: Event): Result<(), BotError>
  {
    match FirstMissing(RequiredFields, event)
    case Some(f) => Err(MissingField(f))
    case None =>
      FieldsNamed(event);
      if event["button"] != Text("left") && event["button"] != Text("right") then Err(BadButton)
      else if CheckDelay(event, "min_delay_sec").Err? then CheckDelay(event, "min_delay_sec")
      else CheckDelay(event, "max_delay_sec")
  }

  /** `validate_fields` with its loop over the required fields. */
  method ValidateFields(event: Event) returns (r: Result<(), BotError>)
    ensures r == Validate(event)
  {
    var i := 0;
    while i < |RequiredFields|
      invariant 0 <= i <= |RequiredFields|
      invariant FirstMissing(RequiredFields[i..], event) == FirstMissing(RequiredFields, event)
    {
      var field := RequiredFields[i];
      if field !in event {
        return Err(MissingField(field));
      }
      assert RequiredFields[i..][1..] == RequiredFields[i + 1..];
      i := i + 1;
    }
    assert RequiredFields[i..] == [];
    FieldsNamed(event);
    if event["button"] != Text("left") && event["button"] != Text("right") {
      return Err(BadButton);
    }
    r := CheckDelay(event, "min_delay_sec");
    if r.Ok? {
      r := CheckDelay(event, "max_delay_sec");
    }
  }

  /** An event passes validation exactly when it has all five fields, a
      left or right button and two non-negative delays; the delays' order is
      not checked. A missing field is reported before anything else, and it
      is the first missing one in the order of `RequiredFields`. */
  lemma ValidateOutcome(event: Event)
    ensures Validate(event).Ok? <==>
      && "id" in event && "click_box" in event && "button" in event && "min_delay_sec" in event && "max_delay_sec" in event
      && (event["button"] == Text("left") || event["button"] == Text("right"))
      && event["min_delay_sec"].Number? && event["min_delay_sec"].n >= 0
      && event["max_delay_sec"].Number? && event["max_delay_sec"].n >= 0
    ensures !HasFields(event) ==> Validate(event).Err? && Validate(event).error.MissingField?
    ensures Validate(event).Err? && Validate(event).error.MissingField? ==>
      exists k :: 0 <= k < |RequiredFields| && Validate(event).error.field == RequiredFields[k] && RequiredFields[k] !in event
                  && forall j :: 0 <= j < k ==> RequiredFields[j] in event
  {
    FieldsNamed(event);
  }

  /** Validation, then the click box, then the event. */
  function MakeEvent(event: Event): Result<MouseEvent, BotError>
  {
    if Validate(event).Err? then Err(Validate(event).error)
    else
      ValidateOutcome(event);
      match (event["id"], event["click_box"])
      case (Text(id), Points(vs)) =>
        (match NewClickBox(vs)
         case Err(e) => Err(e)
         case Ok(box) => Ok(MouseEvent(id, box, event["button"].s, event["min_delay_sec"].n, event["max_delay_sec"].n)))
      case (Text(_), _) => Err(NotPoints("click_box"))
      case _ => Err(NotText("id"))
  }

  /** The events in file order, or the first entry's error. */
  function ParseEventsSpec(events: seq<Event>): Result<seq<MouseEvent>, BotError>
  {
    MakeEach(MakeEvent, events)
  }

  /** `make` applied to each entry in order, stopping at the first error. */
  function MakeEach(make: Event -> Result<MouseEvent, BotError>, events: seq<Event>): Result<seq<MouseEvent>, BotError>
  {
    if events == [] then Ok([])
    else
      match make(events[0])
      case Err(e) => Err(e)
      case Ok(m) =>
        match MakeEach(make, events[1..])
        case Err(e) => Err(e)
        case Ok(ms) => Ok([m] + ms)
  }

  function PrependEvents(ms: seq<MouseEvent>, r: Result<seq<MouseEvent>, BotError>): Result<seq<MouseEvent>, BotError>
  {
    match r
    case Err(e) => Err(e)
    case Ok(ws) => Ok(ms + ws)
  }

  /** `_parse_events`: validate each entry, then append its event. */
  method ParseEvents(events: seq<Event>) returns (r: Result<seq<MouseEvent>, BotError>)
    ensures r == ParseEventsSpec(events)
  {
    var parsed: seq<MouseEvent> := [];
    var i := 0;
    assert events[0..] == events;
    if ParseEventsSpec(events).Ok? {
      assert [] + ParseEventsSpec(events).value == ParseEventsSpec(events).value;
    }
    while i < |events|
      invariant 0 <= i <= |events|
      invariant PrependEvents(parsed, ParseEventsSpec(events[i..])) == ParseEventsSpec(events)
    {
      assert events[i..][0] == events[i];
      assert events[i..][1..] == events[i + 1..];
      var v := ValidateFields(events[i]);
      if v.Err? {
        assert ParseEventsSpec(events[i..]) == Err(v.error);
        return Err(v.error);
      }
      var made := MakeEvent(events[i]);
      if made.Err? {
        assert ParseEventsSpec(events[i..]) == Err(made.error);
        return Err(made.error);
      }
      var rest := ParseEventsSpec(events[i + 1..]);
      if rest.Ok? {
        assert parsed + ([made.value] + rest.value) == (parsed + [made.value]) + rest.value;
      }
      parsed := parsed + [made.value];
      i := i + 1;
    }
    assert events[i..] == [];
    assert parsed + [] == parsed;
    r := Ok(parsed);
  }

  /** Reading succeeds exactly when every entry makes an event, and then
      gives those events in file order; otherwise it raises the error of the
      first entry that fails. */
  lemma {:induction false} MakeEachOutcome(make: Event -> Result<MouseEvent, BotError>, events: seq<Event>)
    ensures var r := MakeEach(make, events);
      && (r.Ok? <==> forall i :: 0 <= i < |events| ==> make(events[i]).Ok?)
      && (r.Ok? ==> |r.value| == |events| && forall i :: 0 <= i < |events| ==> r.value[i] == make(events[i]).value)
      && (r.Err? ==> exists k :: 0 <= k < |events| && make(events[k]) == Err(r.error)
                                 && forall j :: 0 <= j < k ==> make(events[j]).Ok?)
    decreases |events|
  {
    if events != [] {
      MakeEachOutcome(make, events[1..]);
      assert forall i :: 1 <= i < |events| ==> events[i] == events[1..][i - 1];
      var r := MakeEach(make, events);
      var rest := MakeEach(make, events[1..]);
      if make(events[0]).Ok? && rest.Err? {
        var k :| 0 <= k < |events| - 1 && make(events[1..][k]) == Err(rest.error)
                 && forall j :: 0 <= j < k ==> make(events[1..][j]).Ok?;
        assert make(events[k + 1]) == Err(r.error);
      }
    }
  }

  /** Reading succeeds exactly when every entry makes an event, and then
      gives those events in file order; otherwise it raises the error of the
      first entry that fails. */
  lemma ParseEventsOutcome(events: seq<Event>)
    ensures var r := ParseEventsSpec(events);
      && (r.Ok? <==> forall i :: 0 <= i < |events| ==> MakeEvent(events[i]).Ok?)
      && (r.Ok? ==> |r.value| == |events| && forall i :: 0 <= i < |events| ==> r.value[i] == MakeEvent(events[i]).value)
      && (r.Err? ==> exists k :: 0 <= k < |events| && MakeEvent(events[k]) == Err(r.error)
                                 && forall j :: 0 <= j < k ==> MakeEvent(events[j]).Ok?)
  {
    MakeEachOutcome(MakeEvent, events);
  }

  // ---------------------------------------------------------------------
  // the mouse controller

  /** What the controller asks the mouse library to do. */
  datatype Action = MoveTo(x: real, y: real, multiplier: real) | LeftClick | RightClick

  /** `MouseController`, with the screen size it reads at construction. */
  datatype MouseController = MouseController(screenWidth: int, screenHeight: int)
  {
    /** `move`: x (reported as the row) is checked before y (the column),
        both before moving. */
    function Move(dst: Point, multiplier: real): (r: Result<Action, BotError>)
      ensures r.Ok? <==> 0.0 <= dst.x < screenWidth as real && 0.0 <= dst.y < screenHeight as real
      ensures r.Ok? ==> r.value == MoveTo(dst.x, dst.y, multiplier)
      ensures !(0.0 <= dst.x < screenWidth as real) ==> r == Err(RowOutOfBounds(dst.x))
      ensures 0.0 <= dst.x < screenWidth as real && !(0.0 <= dst.y < screenHeight as real) ==> r == Err(ColumnOutOfBounds(dst.y))
    {
      if dst.x < 0.0 || dst.x >= screenWidth as real then Err(RowOutOfBounds(dst.x))
      else if dst.y < 0.0 || dst.y >= screenHeight as real then Err(ColumnOutOfBounds(dst.y))
      else Ok(MoveTo(dst.x, dst.y, multiplier))
    }

    /** `click`: left or right, anything else raises. */
    function Click(button: string): (r: Result<Action, BotError>)
      ensures r.Ok? <==> button == "left" || button == "right"
      ensures button == "left" ==> r == Ok(LeftClick)
      ensures button == "right" ==> r == Ok(RightClick)
      ensures r.Err? ==> r.error == UnexpectedButton(button)
    {
      if button == "left" then Ok(LeftClick)
      else if button == "right" then Ok(RightClick)
      else Err(UnexpectedButton(button))
    }
  }

  /** A point sampled from a click box whose corners all lie on the screen
      never makes the move raise. */
  lemma ClickBoxMoveOnScreen(ctrl: MouseController, box: ClickBox, coin: real, s: real, t: real, multiplier: real)
    requires |box.vertices| == VertexTotal
    requires IsDraw(s) && IsDraw(t)
    requires forall i :: 0 <= i < |box.vertices| ==>
               0 <= box.vertices[i].x < ctrl.screenWidth && 0 <= box.vertices[i].y < ctrl.screenHeight
    ensures ctrl.Move(GetRandPoint(box.vertices, coin, s, t), multiplier).Ok?
  {
    var vs := box.vertices;
    RandPointInClickBox(vs, coin, s, t);
    var i, j :| 0 <= i < |vs| && vs[i].x == MinX(vs) && 0 <= j < |vs| && vs[j].x == MaxX(vs) by {
      ExtremeXAttained(vs);
    }
    var k, l :| 0 <= k < |vs| && vs[k].y == MinY(vs) && 0 <= l < |vs| && vs[l].y == MaxY(vs) by {
      ExtremeYAttained(vs);
    }
  }

  /** The button of an event read from the file never makes the click
      raise. */
  lemma EventClickAccepted(ctrl: MouseController, event: Event)
    requires MakeEvent(event).Ok?
    ensures ctrl.Click(MakeEvent(event).value.button).Ok?
  {
    ValidateOutcome(event);
  }

  lemma {:induction false} ExtremeXAttained(vs: seq<Vertex>)
    requires |vs| > 0
    ensures exists i :: 0 <= i < |vs| && vs[i].x == MinX(vs)
    ensures exists j :: 0 <= j < |vs| && vs[j].x == MaxX(vs)
    decreases |vs|
  {
    if |vs| == 1 {
      assert vs[0].x == MinX(vs) && vs[0].x == MaxX(vs);
    } else {
      ExtremeXAttained(vs[1..]);
      var i :| 0 <= i < |vs[1..]| && vs[1..][i].x == MinX(vs[1..]);
      var j :| 0 <= j < |vs[1..]| && vs[1..][j].x == MaxX(vs[1..]);
      if vs[0].x < MinX(vs[1..]) { assert vs[0].x == MinX(vs); } else { assert vs[i + 1].x == MinX(vs); }
      if vs[0].x > MaxX(vs[1..]) { assert vs[0].x == MaxX(vs); } else { assert vs[j + 1].x == MaxX(vs); }
    }
  }

  lemma {:induction false} ExtremeYAttained(vs: seq<Vertex>)
    requires |vs| > 0
    ensures exists i :: 0 <= i < |vs| && vs[i].y == MinY(vs)
    ensures exists j :: 0 <= j < |vs| && vs[j].y == MaxY(vs)
    decreases |vs|
  {
    if |vs| == 1 {
      assert vs[0].y == MinY(vs) && vs[0].y == MaxY(vs);
    } else {
      ExtremeYAttained(vs[1..]);
      var i :| 0 <= i < |vs[1..]| && vs[1..][i].y == MinY(vs[1..]);
      var j :| 0 <= j < |vs[1..]| && vs[1..][j].y == MaxY(vs[1..]);
      if vs[0].y < MinY(vs[1..]) { assert vs[0].y == MinY(vs); } else { assert vs[i + 1].y == MinY(vs); }
      if vs[0].y > MaxY(vs[1..]) { assert vs[0].y == MaxY(vs); } else { assert vs[j + 1].y == MaxY(vs); }
    }
  }
}
