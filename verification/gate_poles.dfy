/**
 * The gate-and-poles vision targets and the decoding of the model's class
 * ids into them.
 */
module GatePoles {
  import opened Wrappers
  import opened Ints
  import NnCv2

  /** `Target`: every class the gate model code knows about. */
  datatype Target = Red | LeftPole | RightPole | Shark | Sawfish | Pole | Blue | Gate | Middle

  /** `TargetError`: the class id that has no target. */
  datatype TargetError = TargetError(x: i32)

  /** `TryFrom<i32> for Target`: ids 0 to 5 are Gate, Middle, Shark,
    * Sawfish, RightPole and LeftPole; every other id, negative ones
    * included, is an error carrying that id. Red, Pole and Blue are never
    * produced. */
  function TargetTryFrom(value: i32): (r: Result<Target, TargetError>)
    ensures r.Ok? <==> 0 <= value <= 5
    ensures r.Err? ==> r.error == TargetError(value)
    ensures r.Ok? ==> r.value != Red && r.value != Pole && r.value != Blue
  {
    match value
    case 0 => Ok(Gate)
    case 1 => Ok(Middle)
    case 2 => Ok(Shark)
    case 3 => Ok(Sawfish)
    case 5 => Ok(LeftPole)
    case 4 => Ok(RightPole)
    case x => Err(TargetError(x))
  }

  /** The class id the model uses for a target, if it has one: the inverse
    * of `TargetTryFrom`. */
  function ClassId(t: Target): Option<i32> {
    match t
    case Gate => Some(0)
    case Middle => Some(1)
    case Shark => Some(2)
    case Sawfish => Some(3)
    case RightPole => Some(4)
    case LeftPole => Some(5)
    case Red | Pole | Blue => None
  }

  /** Decoding and `ClassId` are inverse on the decodable ids and targets. */
  lemma TargetRoundTrip(value: i32, t: Target)
    ensures TargetTryFrom(value) == Ok(t) <==> ClassId(t) == Some(value)
  {
  }

  /** Distinct decodable ids give distinct targets. */
  lemma TargetTryFromInjective(a: i32, b: i32)
    requires TargetTryFrom(a).Ok? && TargetTryFrom(b).Ok?
    requires TargetTryFrom(a) == TargetTryFrom(b)
    ensures a == b
  {
    TargetRoundTrip(a, TargetTryFrom(a).value);
    TargetRoundTrip(b, TargetTryFrom(b).value);
  }

  /** `From<YoloClass<Target>> for Target`: the target a class compares
    * equal to. */
  function TargetFromYoloClass(y: NnCv2.YoloClass<Target>): (r: Target)
    ensures NnCv2.EqIdentifier(y, r)
  {
    y.identifier
  }

  /** Two classes are equal exactly when they convert to the same target. */
  lemma TargetFromYoloClassReflectsEq(a: NnCv2.YoloClass<Target>, b: NnCv2.YoloClass<Target>)
    ensures NnCv2.Eq(a, b) <==> TargetFromYoloClass(a) == TargetFromYoloClass(b)
  {
  }

  /** A detection becomes a class with a target exactly when its class id is
    * 0 to 5; the class converts back to a target whose `ClassId` is the
    * detection's id, and a failure reports that id. */
  lemma DetectionRoundTrip(d: NnCv2.YoloDetection)
    ensures NnCv2.TryFromDetection(TargetTryFrom, d).Ok? <==> 0 <= d.classId <= 5
    ensures NnCv2.TryFromDetection(TargetTryFrom, d).Ok? ==>
      ClassId(TargetFromYoloClass(NnCv2.TryFromDetection(TargetTryFrom, d).value)) == Some(d.classId)
    ensures NnCv2.TryFromDetection(TargetTryFrom, d).Err? ==>
      NnCv2.TryFromDetection(TargetTryFrom, d).error.x == d.classId
  {
    var r := NnCv2.TryFromDetection(TargetTryFrom, d);
    if r.Ok? {
      TargetRoundTrip(d.classId, r.value.identifier);
    }
  }
}
