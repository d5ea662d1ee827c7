/** The comparator handed to `Array.prototype.sort` for each sort option,
    and the order it induces. */
module Ordering {
  import opened Options
  import opened Types
  import opened Text

  /** `parseFloat(prompt) + parseFloat(completion)`: NaN (`None`) as soon
      as either price fails to parse, never a silent zero. */
  function TotalPrice(m: Model): (r: Option<real>)
    ensures r.Some? <==> ParseFloat(m.pricing.prompt).Some? && ParseFloat(m.pricing.completion).Some?
    ensures r.Some? ==> r.value == ParseFloat(m.pricing.prompt).value + ParseFloat(m.pricing.completion).value
  {
    match (ParseFloat(m.pricing.prompt), ParseFloat(m.pricing.completion))
    case (Some(p), Some(c)) => Some(p + c)
    case _ => None
  }

  /** The comparator's return value; `None` is NaN. It is NaN exactly when
      a price option meets a record whose prices do not parse, and a record
      compared with itself gives zero. */
  function Comparator(o: SortOption, a: Model, b: Model): (r: Option<real>)
    ensures r.None? <==> !(Ranked(o, a) && Ranked(o, b))
    ensures r.Some? && a == b ==> r.value == 0.0
  {
    match o
    case PriceLowHigh =>
      (match (TotalPrice(a), TotalPrice(b))
       case (Some(pa), Some(pb)) => Some(pa - pb)
       case _ => None)
    case PriceHighLow =>
      (match (TotalPrice(a), TotalPrice(b))
       case (Some(pa), Some(pb)) => Some(pb - pa)
       case _ => None)
    case ContextHighLow => Some((b.contextLength - a.contextLength) as real)
    case NameAToZ =>
      LocaleCompareAntisymmetric(a.name, b.name);
      Some(LocaleCompare(a.name, b.name) as real)
  }

  /** `a` must be placed before `b`: the comparator is negative. A NaN
      result counts as zero, as the SortCompare operation of ECMA-262
      (section 23.1.3.30) prescribes. */
  predicate Before(o: SortOption, a: Model, b: Model) {
    match Comparator(o, a, b)
    case Some(v) => v < 0.0
    case None => false
  }

  /** Neither record must precede the other: they tie under `o`. */
  predicate Tied(o: SortOption, a: Model, b: Model) {
    !Before(o, a, b) && !Before(o, b, a)
  }

  /** The comparator is consistent on `m`: for the price options both of
      its prices parse. */
  predicate Ranked(o: SortOption, m: Model) {
    (o.PriceLowHigh? || o.PriceHighLow?) ==> TotalPrice(m).Some?
  }

  /** What `Before` means for each option on ranked records. */
  lemma BeforeMeaning(o: SortOption, a: Model, b: Model)
    requires Ranked(o, a) && Ranked(o, b)
    ensures o.PriceLowHigh? ==> (Before(o, a, b) <==> TotalPrice(a).value < TotalPrice(b).value)
    ensures o.PriceHighLow? ==> (Before(o, a, b) <==> TotalPrice(b).value < TotalPrice(a).value)
    ensures o.ContextHighLow? ==> (Before(o, a, b) <==> b.contextLength < a.contextLength)
    ensures o.NameAToZ? ==> (Before(o, a, b) <==> LocaleCompare(a.name, b.name) < 0)
  {
  }

  /** Nothing precedes itself, and precedence is never mutual. */
  lemma BeforeAsymmetric(o: SortOption, a: Model, b: Model)
    ensures !Before(o, a, a)
    ensures Before(o, a, b) ==> !Before(o, b, a)
  {
    if o.NameAToZ? {
      LocaleCompareAntisymmetric(a.name, a.name);
      LocaleCompareAntisymmetric(a.name, b.name);
    }
  }

  /** Precedence is transitive, NaN or not. */
  lemma BeforeTransitive(o: SortOption, a: Model, b: Model, c: Model)
    requires Before(o, a, b) && Before(o, b, c)
    ensures Before(o, a, c)
  {
    if o.NameAToZ? {
      LocaleCompareTransitive(a.name, b.name, c.name);
    }
  }

  /** "Not after" is transitive on ranked records; together with the two
      lemmas above this makes `Before` a strict weak order there. A record
      whose prices do not parse breaks it (`1`, NaN, `2` ascending). */
  lemma NotBeforeTransitive(o: SortOption, a: Model, b: Model, c: Model)
    requires Ranked(o, a) && Ranked(o, b) && Ranked(o, c)
    requires !Before(o, b, a) && !Before(o, c, b)
    ensures !Before(o, c, a)
  {
    if o.NameAToZ? {
      LocaleCompareAntisymmetric(a.name, b.name);
      LocaleCompareAntisymmetric(b.name, c.name);
      LocaleCompareAntisymmetric(a.name, c.name);
      if LocaleCompare(b.name, a.name) > 0 && LocaleCompare(c.name, b.name) > 0 {
        LocaleCompareTransitive(a.name, b.name, c.name);
      }
    }
  }

  /** Ties are an equivalence on ranked records. */
  lemma TiedTransitive(o: SortOption, a: Model, b: Model, c: Model)
    requires Ranked(o, a) && Ranked(o, b) && Ranked(o, c)
    requires Tied(o, a, b) && Tied(o, b, c)
    ensures Tied(o, a, c)
  {
    NotBeforeTransitive(o, a, b, c);
    NotBeforeTransitive(o, c, b, a);
  }
}
