/** The values a catalog card derives from its record: prices per million
    tokens, the "Free" badge, the modality label and the footer badges. */
module Card {
  import opened Options
  import opened Types
  import opened Text
  import Catalog

  /** `parseFloat(price) * 1000000`; `None` is NaN. */
  function PerMillion(price: string): (r: Option<real>)
    ensures r.Some? <==> ParseFloat(price).Some?
    ensures r.Some? ==> r.value / 1000000.0 == ParseFloat(price).value
  {
    match ParseFloat(price)
    case Some(v) => Some(v * 1000000.0)
    case None => None
  }

  /** The "Free" badge: both per-million prices equal zero. */
  function IsFree(m: Model): (b: bool)
    ensures b <==> ParseFloat(m.pricing.prompt) == Some(0.0) && ParseFloat(m.pricing.completion) == Some(0.0)
  {
    PerMillion(m.pricing.prompt) == Some(0.0) && PerMillion(m.pricing.completion) == Some(0.0)
  }

  /** The badge appears exactly for the records the "free only" filter
      keeps; a price that does not parse is never free. */
  lemma IsFreeMatchesFilter(m: Model)
    ensures IsFree(m) <==> Catalog.HasZeroPrices(m)
    ensures ParseFloat(m.pricing.prompt).None? || ParseFloat(m.pricing.completion).None? ==> !IsFree(m)
  {
  }

  /** The card's modality line: the legacy `modality` string when
      non-empty, else the input modalities joined with '/' when that is
      non-empty, else "text". */
  function ModalityLabel(m: Model): (r: string)
    ensures r != ""
    ensures (m.architecture.Some? && m.architecture.value.modality.Some? &&
             m.architecture.value.modality.value != "") ==> r == m.architecture.value.modality.value
    ensures r == "text" || (m.architecture.Some? && (
              (m.architecture.value.modality.Some? && r == m.architecture.value.modality.value) ||
              (m.architecture.value.inputModalities.Some? && r == Join(m.architecture.value.inputModalities.value, "/"))))
  {
    var legacy := if m.architecture.Some? then m.architecture.value.modality.GetOr("") else "";
    var joined :=
      if m.architecture.Some? && m.architecture.value.inputModalities.Some?
      then Join(m.architecture.value.inputModalities.value, "/")
      else "";
    if legacy != "" then legacy else if joined != "" then joined else "text"
  }

  /** Without a legacy modality the label is the joined input list,
      falling back to "text" exactly when that list is absent, empty, or a
      single empty name. */
  lemma ModalityLabelFallback(m: Model)
    requires m.architecture.Some? ==> m.architecture.value.modality.GetOr("") == ""
    ensures m.architecture.None? || m.architecture.value.inputModalities.None? ==> ModalityLabel(m) == "text"
    ensures m.architecture.Some? && m.architecture.value.inputModalities.Some? ==>
              var xs := m.architecture.value.inputModalities.value;
              ModalityLabel(m) == if |xs| == 0 || xs == [""] then "text" else Join(xs, "/")
  {
    if m.architecture.Some? && m.architecture.value.inputModalities.Some? {
      var xs := m.architecture.value.inputModalities.value;
      JoinEmptyIff(xs, "/");
    }
  }

  /** The instruct badge shows `instruct_type` when it is a non-empty
      string; absent, null and empty all hide it. */
  function InstructBadge(m: Model): (r: Option<string>)
    ensures r.Some? <==> m.architecture.Some? && m.architecture.value.instructType.Present? &&
                         m.architecture.value.instructType.value != ""
    ensures r.Some? ==> r.value == m.architecture.value.instructType.value
  {
    if m.architecture.Some? then
      match m.architecture.value.instructType
      case Present(t) => if t != "" then Some(t) else None
      case _ => None
    else None
  }

  /** The "Moderated" badge shows exactly when `is_moderated` is true: an
      absent provider, an absent flag and `false` all hide it. */
  function ModeratedBadge(m: Model): (b: bool)
    ensures m.topProvider.None? ==> !b
    ensures m.topProvider.Some? && m.topProvider.value.isModerated.None? ==> !b
    ensures m.topProvider.Some? && m.topProvider.value.isModerated == Some(false) ==> !b
    ensures m.topProvider.Some? && m.topProvider.value.isModerated == Some(true) ==> b
  {
    m.topProvider.Some? && m.topProvider.value.isModerated == Some(true)
  }
}
