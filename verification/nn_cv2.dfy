/**
 * The value semantics of YOLO detections and classes: a `YoloClass` is
 * identified by its `identifier` alone, its confidence is carried along but
 * takes no part in equality or hashing. Floating-point fields are modelled
 * as `real`; they are only ever copied here.
 */
module NnCv2 {
  import opened Wrappers
  import opened Ints

  /** `opencv::core::Rect2d`, as plain data. */
  datatype Rect2d = Rect2d(x: real, y: real, width: real, height: real)

  /** `YoloDetection`: one raw detection with its numeric class id. */
  datatype YoloDetection = YoloDetection(classId: i32, confidence: real, boundingBox: Rect2d)

  /** `YoloClass<T>`: a detection whose class id has been decoded to a `T`. */
  datatype YoloClass<T> = YoloClass(identifier: T, confidence: real)

  /** `PartialEq<T> for YoloClass<T>`: comparing against a bare `T`. */
  predicate EqIdentifier<T(==)>(y: YoloClass<T>, other: T) {
    y.identifier == other
  }

  /** `PartialEq for YoloClass<T>`: the identifiers are compared, the
    * confidences are not. */
  predicate Eq<T(==)>(a: YoloClass<T>, b: YoloClass<T>) {
    a.identifier == b.identifier
  }

  /** `Hash for YoloClass<T>`: only the identifier is fed to the hasher,
    * here the function `hashIdentifier` standing for `T::hash`. */
  function Hash<T, H>(hashIdentifier: T -> H, y: YoloClass<T>): H {
    hashIdentifier(y.identifier)
  }

  /** `Eq` is an equivalence relation, as Rust's `Eq` marker promises. */
  lemma EqIsEquivalence<T>(a: YoloClass<T>, b: YoloClass<T>, c: YoloClass<T>)
    ensures Eq(a, a)
    ensures Eq(a, b) <==> Eq(b, a)
    ensures Eq(a, b) && Eq(b, c) ==> Eq(a, c)
  {
  }

  /** Two classes are equal exactly when their identifiers are, whatever
    * their confidences; and comparing with a bare `T` is comparing identifiers. */
  lemma EqIgnoresConfidence<T>(a: YoloClass<T>, b: YoloClass<T>)
    ensures Eq(a, b) <==> EqIdentifier(a, b.identifier)
    ensures Eq(a, b) <==> a.(confidence := b.confidence) == b
  {
  }

  /** Equal classes hash equally, the contract `HashMap` relies on. */
  lemma HashRespectsEq<T, H>(hashIdentifier: T -> H, a: YoloClass<T>, b: YoloClass<T>)
    requires Eq(a, b)
    ensures Hash(hashIdentifier, a) == Hash(hashIdentifier, b)
  {
  }

  /** `TryFrom<YoloDetection> for YoloClass<T>`: succeeds exactly when the
    * class id converts (`convert` stands for `T::try_from`); the identifier is
    * the converted id, the confidence is copied, and a failure is the
    * conversion's own error. */
  function TryFromDetection<T, E>(convert: i32 -> Result<T, E>, d: YoloDetection): (r: Result<YoloClass<T>, E>)
    ensures r.Ok? <==> convert(d.classId).Ok?
    ensures r.Ok? ==> r.value.identifier == convert(d.classId).value && r.value.confidence == d.confidence
    ensures r.Err? ==> r.error == convert(d.classId).error
  {
    match convert(d.classId)
    case Ok(t) => Ok(YoloClass(t, d.confidence))
    case Err(e) => Err(e)
  }
}
