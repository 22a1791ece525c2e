/**
 * The physical layout (src/system.py): rectangular objects with a material,
 * the bounding box of a list of them, and the fixed scenarios a
 * microprocessor system is built from.
 */
module System {
  import opened Wrappers

  /** A rectangle in metres with its thermal conductivity (W/mK) and heat output (W/m^3). */
  datatype Object = Object(xmin: real, xmax: real, ymin: real, ymax: real, k: real, power: real, colour: string)

  /** Object(bottom_left, width, height, thermal_conductivity, thermal_output, colour). */
  function NewObject(bottomLeft: (real, real), width: real, height: real,
                     thermalConductivity: real, thermalOutput: real, colour: string): (o: Object)
    ensures o.xmin == bottomLeft.0 && o.ymin == bottomLeft.1
    ensures o.xmax - o.xmin == width && o.ymax - o.ymin == height
    ensures o.k == thermalConductivity && o.power == thermalOutput && o.colour == colour
    ensures width >= 0.0 ==> o.xmin <= o.xmax
    ensures height >= 0.0 ==> o.ymin <= o.ymax
  {
    Object(bottomLeft.0, bottomLeft.0 + width, bottomLeft.1, bottomLeft.1 + height,
           thermalConductivity, thermalOutput, colour)
  }

  /** The (xmin, xmax, ymin, ymax) tuple determine_extremes returns. */
  datatype Bounds = Bounds(xmin: real, xmax: real, ymin: real, ymax: real)

  /** Every object lies inside the box. */
  predicate Encloses(b: Bounds, objects: seq<Object>)
  {
    forall i :: 0 <= i < |objects| ==>
      && b.xmin <= objects[i].xmin && objects[i].xmax <= b.xmax
      && b.ymin <= objects[i].ymin && objects[i].ymax <= b.ymax
  }

  /** Each side of the box is the matching side of some object. */
  predicate Attained(b: Bounds, objects: seq<Object>)
  {
    && (exists i :: 0 <= i < |objects| && objects[i].xmin == b.xmin)
    && (exists i :: 0 <= i < |objects| && objects[i].xmax == b.xmax)
    && (exists i :: 0 <= i < |objects| && objects[i].ymin == b.ymin)
    && (exists i :: 0 <= i < |objects| && objects[i].ymax == b.ymax)
  }

  /** The tightest box around the objects: it encloses them and touches each side. */
  predicate IsBoundingBox(b: Bounds, objects: seq<Object>)
  {
    Encloses(b, objects) && Attained(b, objects)
  }

  /** determine_extremes: starts from the first object and widens the box over the whole list. */
  method DetermineExtremes(objects: seq<Object>) returns (b: Bounds)
    requires |objects| > 0
    ensures IsBoundingBox(b, objects)
  {
    var xmin, xmax, ymin, ymax := objects[0].xmin, objects[0].xmax, objects[0].ymin, objects[0].ymax;
    // Which object each running extreme currently comes from.
    ghost var ixmin, ixmax, iymin, iymax := 0, 0, 0, 0;

    for n := 0 to |objects|
      invariant ixmin < |objects| && objects[ixmin].xmin == xmin
      invariant ixmax < |objects| && objects[ixmax].xmax == xmax
      invariant iymin < |objects| && objects[iymin].ymin == ymin
      invariant iymax < |objects| && objects[iymax].ymax == ymax
      invariant forall i :: 0 <= i < n ==>
        && xmin <= objects[i].xmin && objects[i].xmax <= xmax
        && ymin <= objects[i].ymin && objects[i].ymax <= ymax
    {
      var obj := objects[n];
      if obj.xmin < xmin {
        xmin, ixmin := obj.xmin, n;
      }
      if obj.xmax > xmax {
        xmax, ixmax := obj.xmax, n;
      }
      if obj.ymin < ymin {
        ymin, iymin := obj.ymin, n;
      }
      if obj.ymax > ymax {
        ymax, iymax := obj.ymax, n;
      }
    }
    b := Bounds(xmin, xmax, ymin, ymax);
  }

  /** The bounding box of a list is unique, so any two answers of determine_extremes agree. */
  lemma BoundingBoxUnique(b1: Bounds, b2: Bounds, objects: seq<Object>)
    requires IsBoundingBox(b1, objects) && IsBoundingBox(b2, objects)
    ensures b1 == b2
  {
    var i1 :| 0 <= i1 < |objects| && objects[i1].xmin == b1.xmin;
    var i2 :| 0 <= i2 < |objects| && objects[i2].xmin == b2.xmin;
    assert b1.xmin == b2.xmin;
    var j1 :| 0 <= j1 < |objects| && objects[j1].xmax == b1.xmax;
    var j2 :| 0 <= j2 < |objects| && objects[j2].xmax == b2.xmax;
    assert b1.xmax == b2.xmax;
    var k1 :| 0 <= k1 < |objects| && objects[k1].ymin == b1.ymin;
    var k2 :| 0 <= k2 < |objects| && objects[k2].ymin == b2.ymin;
    assert b1.ymin == b2.ymin;
    var l1 :| 0 <= l1 < |objects| && objects[l1].ymax == b1.ymax;
    var l2 :| 0 <= l2 < |objects| && objects[l2].ymax == b2.ymax;
    assert b1.ymax == b2.ymax;
  }

  /** A box around a list with a well-formed first object is itself well-formed. */
  lemma BoundingBoxOrdered(b: Bounds, objects: seq<Object>)
    requires |objects| > 0 && Encloses(b, objects)
    requires objects[0].xmin <= objects[0].xmax && objects[0].ymin <= objects[0].ymax
    ensures b.xmin <= b.xmax && b.ymin <= b.ymax
  {
    assert b.xmin <= objects[0].xmin && objects[0].xmax <= b.xmax;
    assert b.ymin <= objects[0].ymin && objects[0].ymax <= b.ymax;
  }

  /** The box of a single object is that object's own rectangle. */
  lemma BoundingBoxSingleton(o: Object)
    ensures IsBoundingBox(Bounds(o.xmin, o.xmax, o.ymin, o.ymax), [o])
  {
    assert [o][0] == o;
  }

  // ---------------------------------------------------------------------------
  // The microprocessor scenarios
  // ---------------------------------------------------------------------------

  /** The 14 mm x 1 mm silicon die producing 5e8 W/m^3. */
  function Processor(): (o: Object)
    ensures o.xmax - o.xmin == 0.014 && o.ymax - o.ymin == 0.001
  {
    NewObject((0.0, 0.0), 0.014, 0.001, 150.0, 500000000.0, "orange")
  }

  /** The 20 mm x 2 mm ceramic case sitting on top of the die; it produces no heat. */
  function CeramicCase(): (o: Object)
    ensures o.xmax - o.xmin == 0.02 && o.ymax - o.ymin == 0.002
    ensures o.power == 0.0
  {
    NewObject((-0.003, 0.001), 0.02, 0.002, 230.0, 0.0, "grey")
  }

  /** The RuntimeError raised for a scenario number above 3. */
  datatype SystemError = UnknownScenario

  /**
   * A microprocessor system. objects is None where the constructor never
   * assigns it (scenario 3 and scenarios below 1), so that any later use of
   * it fails.
   */
  datatype MicroprocessorSystem = MicroprocessorSystem(temps: seq<seq<real>>, objects: Option<seq<Object>>)

  /** MicroprocessorSystem(scenario). */
  function NewMicroprocessorSystem(scenario: int): (r: Result<MicroprocessorSystem, SystemError>)
    ensures r.Failure? <==> scenario > 3
    ensures r.Success? ==> r.value.temps == [[]]
    ensures r.Success? ==> (r.value.objects.Some? <==> scenario == 1 || scenario == 2)
    ensures r.Success? && r.value.objects.Some? ==>
      |r.value.objects.value| == scenario && r.value.objects.value[0] == Processor()
    ensures scenario == 1 ==> r == Success(MicroprocessorSystem([[]], Some([Processor()])))
    ensures scenario == 2 ==> r == Success(MicroprocessorSystem([[]], Some([Processor(), CeramicCase()])))
  {
    if scenario > 3 then Failure(UnknownScenario)
    else if scenario == 1 then Success(MicroprocessorSystem([[]], Some([Processor()])))
    else if scenario == 2 then Success(MicroprocessorSystem([[]], Some([Processor(), CeramicCase()])))
    else Success(MicroprocessorSystem([[]], None))
  }

  /** Whenever a scenario sets its objects, the bounding box determine_extremes needs is defined. */
  lemma ScenarioObjectsNonEmpty(scenario: int)
    requires NewMicroprocessorSystem(scenario).Success?
    requires NewMicroprocessorSystem(scenario).value.objects.Some?
    ensures |NewMicroprocessorSystem(scenario).value.objects.value| > 0
  {
  }

  /** Scenario 1: the box is the processor itself. */
  lemma Scenario1Extremes(b: Bounds)
    requires IsBoundingBox(b, NewMicroprocessorSystem(1).value.objects.value)
    ensures b == Bounds(0.0, 0.014, 0.0, 0.001)
  {
    assert NewMicroprocessorSystem(1).value.objects.value == [Processor()];
    BoundingBoxSingleton(Processor());
    BoundingBoxUnique(b, Bounds(0.0, 0.014, 0.0, 0.001), [Processor()]);
  }

  /** Scenario 2: the case overhangs the die by 3 mm on each side and stacks 2 mm on top of it. */
  lemma Scenario2Extremes(b: Bounds)
    requires IsBoundingBox(b, NewMicroprocessorSystem(2).value.objects.value)
    ensures b == Bounds(-0.003, 0.017, 0.0, 0.003)
  {
    var objects := NewMicroprocessorSystem(2).value.objects.value;
    assert objects == [Processor(), CeramicCase()];
    var expected := Bounds(-0.003, 0.017, 0.0, 0.003);
    assert objects[0] == Processor() && objects[1] == CeramicCase();
    assert Encloses(expected, objects);
    assert objects[1].xmin == expected.xmin && objects[1].xmax == expected.xmax;
    assert objects[0].ymin == expected.ymin && objects[1].ymax == expected.ymax;
    BoundingBoxUnique(b, expected, objects);
  }
}
