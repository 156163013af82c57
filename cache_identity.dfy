// The identity under which a resolved asset is cached: the handler class, the mount point,
// the path and the environment, each possibly null.

module CacheIdentity {
  import opened Wrappers
  import opened JavaLang

  /** The four fields, fixed at construction; None is a null field. */
  datatype CacheIdentity = CacheIdentity(
    handlerClassName: Option<string>,
    mountPoint: Option<string>,
    path: Option<string>,
    environmentRedux: Option<string>)

  /** EqualsBuilder.append on two fields: both null, or both set and equal. */
  predicate FieldEquals(a: Option<string>, b: Option<string>)
  {
    if a.None? then b.None? else b.Some? && a.value == b.value
  }

  /** equals(other): false for null, otherwise field by field. */
  function Equals(a: CacheIdentity, other: Option<CacheIdentity>): (r: bool)
    ensures r <==> other == Some(a)
  {
    match other
    case None => false
    case Some(b) =>
      && FieldEquals(a.handlerClassName, b.handlerClassName)
      && FieldEquals(a.mountPoint, b.mountPoint)
      && FieldEquals(a.path, b.path)
      && FieldEquals(a.environmentRedux, b.environmentRedux)
  }

  /** The hash of one field: 0 for null, String.hashCode otherwise. */
  function FieldHash(f: Option<string>): (h: int)
    ensures MIN_INT <= h <= MAX_INT
    ensures f.None? ==> h == 0
  {
    if f.None? then 0 else StringHash(f.value)
  }

  /** hashCode: HashCodeBuilder with seed 17 and multiplier 37 over the four fields. */
  function HashCode(a: CacheIdentity): (h: int)
    ensures MIN_INT <= h <= MAX_INT
  {
    var h0 := 17;
    var h1 := Wrap32(h0 * 37 + FieldHash(a.handlerClassName));
    var h2 := Wrap32(h1 * 37 + FieldHash(a.mountPoint));
    var h3 := Wrap32(h2 * 37 + FieldHash(a.path));
    Wrap32(h3 * 37 + FieldHash(a.environmentRedux))
  }

  /** Two identities are equal exactly when all four fields agree. */
  lemma EqualsIffSameFields(a: CacheIdentity, b: CacheIdentity)
    ensures Equals(a, Some(b)) <==> a == b
  {
  }

  /** equals is an equivalence on identities and refuses null. */
  lemma EqualsIsEquivalence(a: CacheIdentity, b: CacheIdentity, c: CacheIdentity)
    ensures Equals(a, Some(a))
    ensures Equals(a, Some(b)) ==> Equals(b, Some(a))
    ensures Equals(a, Some(b)) && Equals(b, Some(c)) ==> Equals(a, Some(c))
    ensures !Equals(a, None)
  {
  }

  /** Equal identities hash alike. */
  lemma EqualHashCodes(a: CacheIdentity, b: CacheIdentity)
    requires Equals(a, Some(b))
    ensures HashCode(a) == HashCode(b)
  {
    EqualsIffSameFields(a, b);
  }
}
