/** The comparison view: the token calculator and the twelve feature rows,
    one cell per compared model. */
module Comparison {
  import opened Options
  import opened Types
  import opened Text
  import Card
  import Ordering

  /** What a cell shows. `Amount` is a number handed to the currency
      formatter, `NotANumber` is NaN handed to it, `Count` a number handed
      to the number formatter. */
  datatype Cell =
    | Amount(value: real)
    | NotANumber
    | Count(n: int)
    | Label(text: string)
    | Placeholder(text: string)
    | Tags(items: seq<string>)
    | Flag(on: bool)

  datatype RowKey =
    | EstimatedCost | ContextLength | Throughput | InputPrice | OutputPrice | ImagePrice
    | RequestPrice | Modality | OutputModality | Moderation | InstructType | SupportedParams

  /** The rows, top to bottom. */
  const RowOrder: seq<RowKey> := [
    EstimatedCost, ContextLength, Throughput, InputPrice, OutputPrice, ImagePrice,
    RequestPrice, Modality, OutputModality, Moderation, InstructType, SupportedParams]

  function RowLabel(k: RowKey): string {
    match k
    case EstimatedCost => "Estimated Cost"
    case ContextLength => "Context Length"
    case Throughput => "Throughput"
    case InputPrice => "Input Price (1M)"
    case OutputPrice => "Output Price (1M)"
    case ImagePrice => "Image Price"
    case RequestPrice => "Request Price"
    case Modality => "Modality"
    case OutputModality => "Output"
    case Moderation => "Moderation"
    case InstructType => "Instruct Type"
    case SupportedParams => "Supported Params"
  }

  datatype Row = Row(key: RowKey, title: string, cells: seq<Cell>)

  /** With no models the view shows its empty state instead of a table. */
  datatype View = EmptyState | Table(rows: seq<Row>)

  /** The calculator fields start at these token counts. */
  const DefaultInputTokens := "10000"
  const DefaultOutputTokens := "3000"

  /** `parseInt(field) || 0`: NaN becomes 0; a negative number is kept. */
  function TokenCount(field: string): (n: int)
    ensures ParseInt(field).None? ==> n == 0
    ensures ParseInt(field).Some? ==> n == ParseInt(field).value
  {
    match ParseInt(field)
    case Some(v) => v
    case None => 0
  }

  /** The default fields read as 10000 and 3000 tokens. */
  lemma DefaultTokenCounts()
    ensures TokenCount(DefaultInputTokens) == 10000
    ensures TokenCount(DefaultOutputTokens) == 3000
  {
    ParseIntShowNat(10000, "");
    ParseIntShowNat(3000, "");
    assert ShowNat(10000) + "" == "10000";
    assert ShowNat(3000) + "" == "3000";
  }

  /** A negative entry passes through unclamped. */
  lemma NegativeTokenCount(n: nat)
    ensures TokenCount("-" + (ShowNat(n) + "")) == 0 - n
  {
    ParseIntNegative(n, "");
  }

  /** Prompt price times input tokens plus completion price times output
      tokens, from the parsed prices; the "-" placeholder, never a number,
      when either price is NaN. */
  function Cost(prompt: Option<real>, completion: Option<real>, inputCount: int, outputCount: int): (r: Cell)
    ensures r.Amount? || r == Placeholder("-")
    ensures r.Amount? <==> prompt.Some? && completion.Some?
    ensures r.Amount? ==> r.value == prompt.value * inputCount as real + completion.value * outputCount as real
  {
    if prompt.Some? && completion.Some?
    then Amount(prompt.value * inputCount as real + completion.value * outputCount as real)
    else Placeholder("-")
  }

  /** The "Estimated Cost" cell of a model. */
  function EstimatedCostCell(m: Model, inputCount: int, outputCount: int): (r: Cell)
    ensures r.Amount? || r == Placeholder("-")
    ensures r.Amount? <==> ParseFloat(m.pricing.prompt).Some? && ParseFloat(m.pricing.completion).Some?
  {
    Cost(ParseFloat(m.pricing.prompt), ParseFloat(m.pricing.completion), inputCount, outputCount)
  }

  /** The cost has a number exactly when the price sort has a key. */
  lemma CostKnownIffPriceRanked(m: Model, inputCount: int, outputCount: int)
    ensures EstimatedCostCell(m, inputCount, outputCount).Amount? <==> Ordering.TotalPrice(m).Some?
  {
  }

  /** With non-negative prices, more tokens never cost less. */
  lemma CostMonotonic(p: real, c: real, i1: int, i2: int, o1: int, o2: int)
    requires p >= 0.0 && c >= 0.0
    requires i1 <= i2 && o1 <= o2
    ensures Cost(Some(p), Some(c), i1, o1).value <= Cost(Some(p), Some(c), i2, o2).value
  {
    MulMonotonic(p, i1 as real, i2 as real);
    MulMonotonic(c, o1 as real, o2 as real);
  }

  lemma MulMonotonic(k: real, a: real, b: real)
    requires k >= 0.0 && a <= b
    ensures k * a <= k * b
  {
    assert k * b - k * a == k * (b - a);
  }

  /** A free model costs nothing whatever the token counts. */
  lemma FreeModelCostsNothing(m: Model, inputCount: int, outputCount: int)
    requires Card.IsFree(m)
    ensures EstimatedCostCell(m, inputCount, outputCount) == Amount(0.0)
  {
    assert ParseFloat(m.pricing.prompt) == Some(0.0) && ParseFloat(m.pricing.completion) == Some(0.0);
  }

  /** At the default counts, prices of 0.000001 and 0.000002 per token cost
      0.016. */
  lemma DefaultCostExample(m: Model)
    requires ParseFloat(m.pricing.prompt) == Some(0.000001)
    requires ParseFloat(m.pricing.completion) == Some(0.000002)
    ensures EstimatedCostCell(m, TokenCount(DefaultInputTokens), TokenCount(DefaultOutputTokens)) == Amount(0.016)
  {
    DefaultTokenCounts();
    assert Cost(Some(0.000001), Some(0.000002), 10000, 3000) == Amount(0.016);
  }

  /** `parseFloat(price) * 1000000`, shown through the currency formatter. */
  function PerMillionCell(price: string): (r: Cell)
    ensures r.Amount? || r.NotANumber?
    ensures r.Amount? <==> Card.PerMillion(price).Some?
    ensures r.Amount? ==> r.value == Card.PerMillion(price).value
  {
    match ParseFloat(price)
    case Some(v) => Amount(v * 1000000.0)
    case None => NotANumber
  }

  /** `field || '0'`: an absent or empty optional price reads as "0". */
  function PriceOrZero(field: Option<string>): string {
    match field
    case Some(s) => if s != "" then s else "0"
    case None => "0"
  }

  /** The image price per thousand images when it is present and parses to
      a positive value; "Free / NA" otherwise, including when it is absent
      or does not parse. */
  function ImagePriceCell(m: Model): (r: Cell)
    ensures r.Amount? <==> m.pricing.image.Some? && ParseFloat(m.pricing.image.value).Some? &&
                           ParseFloat(m.pricing.image.value).value > 0.0
    ensures r.Amount? ==> r.value == ParseFloat(m.pricing.image.value).value * 1000.0
    ensures !r.Amount? ==> r == Placeholder("Free / NA")
  {
    ParseFloatZero();
    match ParseFloat(PriceOrZero(m.pricing.image))
    case Some(v) => if v > 0.0 then Amount(ParseFloat(m.pricing.image.value).value * 1000.0) else Placeholder("Free / NA")
    case None => Placeholder("Free / NA")
  }

  /** The per-request price when it parses to a positive value, "-"
      otherwise. */
  function RequestPriceCell(m: Model): (r: Cell)
    ensures r.Amount? <==> m.pricing.request.Some? && ParseFloat(m.pricing.request.value).Some? &&
                           ParseFloat(m.pricing.request.value).value > 0.0
    ensures r.Amount? ==> r.value == ParseFloat(m.pricing.request.value).value
    ensures !r.Amount? ==> r == Placeholder("-")
  {
    ParseFloatZero();
    match ParseFloat(PriceOrZero(m.pricing.request))
    case Some(v) => if v > 0.0 then Amount(ParseFloat(m.pricing.request.value).value) else Placeholder("-")
    case None => Placeholder("-")
  }

  /** A modality list as tags; "Text" when the list (or the whole
      architecture) is absent. A present empty list gives no tags. */
  function ModalityCell(modalities: Option<seq<string>>): (r: Cell)
    ensures modalities.None? <==> r == Placeholder("Text")
    ensures modalities.Some? ==> r == Tags(modalities.value)
  {
    match modalities
    case Some(xs) => Tags(xs)
    case None => Placeholder("Text")
  }

  function InputModalities(m: Model): Option<seq<string>> {
    if m.architecture.Some? then m.architecture.value.inputModalities else None
  }

  function OutputModalities(m: Model): Option<seq<string>> {
    if m.architecture.Some? then m.architecture.value.outputModalities else None
  }

  /** The throughput string when non-empty, "-" otherwise. */
  function ThroughputCell(m: Model): (r: Cell)
    ensures r.Label? <==> m.topProvider.Some? && m.topProvider.value.throughput.Some? &&
                          m.topProvider.value.throughput.value != ""
    ensures r.Label? ==> r.text == m.topProvider.value.throughput.value
    ensures !r.Label? ==> r == Placeholder("-")
  {
    if m.topProvider.Some? && m.topProvider.value.throughput.GetOr("") != ""
    then Label(m.topProvider.value.throughput.value)
    else Placeholder("-")
  }

  /** `instruct_type || '-'`. */
  function InstructCell(m: Model): (r: Cell)
    ensures r.Label? <==> Card.InstructBadge(m).Some?
    ensures r.Label? ==> r.text == Card.InstructBadge(m).value
    ensures !r.Label? ==> r == Placeholder("-")
  {
    if m.architecture.Some? && m.architecture.value.instructType.Present? &&
       m.architecture.value.instructType.value != ""
    then Label(m.architecture.value.instructType.value)
    else Placeholder("-")
  }

  /** One model's cell in one row. */
  function RenderCell(k: RowKey, m: Model, inputCount: int, outputCount: int): (r: Cell)
    ensures k == ContextLength ==> r == Count(m.contextLength)
    ensures k == Moderation ==>
              r.Flag? && (r.on <==> m.topProvider.Some? && m.topProvider.value.isModerated == Some(true))
    ensures k == SupportedParams ==>
              r == Tags(if m.supportedParameters.Some? then m.supportedParameters.value else [])
    ensures k == InputPrice ==> r == PerMillionCell(m.pricing.prompt)
    ensures k == OutputPrice ==> r == PerMillionCell(m.pricing.completion)
  {
    match k
    case EstimatedCost => EstimatedCostCell(m, inputCount, outputCount)
    case ContextLength => Count(m.contextLength)
    case Throughput => ThroughputCell(m)
    case InputPrice => PerMillionCell(m.pricing.prompt)
    case OutputPrice => PerMillionCell(m.pricing.completion)
    case ImagePrice => ImagePriceCell(m)
    case RequestPrice => RequestPriceCell(m)
    case Modality => ModalityCell(InputModalities(m))
    case OutputModality => ModalityCell(OutputModalities(m))
    case Moderation => Flag(Card.ModeratedBadge(m))
    case InstructType => InstructCell(m)
    case SupportedParams => Tags(m.supportedParameters.GetOr([]))
  }

  function BuildRow(k: RowKey, models: seq<Model>, inputCount: int, outputCount: int): (r: Row)
    ensures r.key == k && |r.cells| == |models|
  {
    Row(k, RowLabel(k), seq(|models|, i requires 0 <= i < |models| => RenderCell(k, models[i], inputCount, outputCount)))
  }

  /** The comparison view for the given models and calculator fields. */
  function BuildView(models: seq<Model>, inputTokens: string, outputTokens: string): (v: View)
    ensures |models| == 0 <==> v == EmptyState
    ensures v.Table? ==> |v.rows| == |RowOrder| == 12
    ensures v.Table? ==> forall k :: 0 <= k < |v.rows| ==>
              v.rows[k].key == RowOrder[k] && v.rows[k].title == RowLabel(RowOrder[k]) &&
              |v.rows[k].cells| == |models|
  {
    if |models| == 0 then EmptyState
    else
      var inputCount := TokenCount(inputTokens);
      var outputCount := TokenCount(outputTokens);
      Table(seq(|RowOrder|, k requires 0 <= k < |RowOrder| => BuildRow(RowOrder[k], models, inputCount, outputCount)))
  }

  /** Every column depends on its own model only: the column of `models[i]`
      is the table built for that model alone. So dropping a model drops
      its column and leaves the others as they were. */
  lemma ColumnsIndependent(models: seq<Model>, i: nat, inputTokens: string, outputTokens: string)
    requires i < |models|
    ensures var whole := BuildView(models, inputTokens, outputTokens);
            var alone := BuildView([models[i]], inputTokens, outputTokens);
            whole.Table? && alone.Table? &&
            forall k :: 0 <= k < |RowOrder| ==> whole.rows[k].cells[i] == alone.rows[k].cells[0]
  {
  }

  /** The cell of model `i` in row `k` is that row's rendering of model
      `i`, with the calculator fields read by `TokenCount`. */
  lemma CellsInModelOrder(models: seq<Model>, inputTokens: string, outputTokens: string, k: nat, i: nat)
    requires k < |RowOrder| && i < |models|
    ensures BuildView(models, inputTokens, outputTokens).rows[k].cells[i] ==
            RenderCell(RowOrder[k], models[i], TokenCount(inputTokens), TokenCount(outputTokens))
  {
  }

  /** The comparison table's per-million prices are the card's. */
  lemma PriceCellsMatchCard(m: Model)
    ensures PerMillionCell(m.pricing.prompt) ==
            (match Card.PerMillion(m.pricing.prompt) case Some(v) => Amount(v) case None => NotANumber)
    ensures PerMillionCell(m.pricing.completion) ==
            (match Card.PerMillion(m.pricing.completion) case Some(v) => Amount(v) case None => NotANumber)
  {
  }

  /** The table's input-modality cell and the card's modality label agree
      only partly: with no legacy modality and a list that joins to a
      non-empty string both show the list, but an empty list gives the
      card "text" and the table no tags, and a legacy modality without a
      list gives the card that value and the table "Text". */
  lemma ModalityCellAgainstCard(m: Model)
    ensures m.architecture.Some? && m.architecture.value.modality.GetOr("") == "" &&
            m.architecture.value.inputModalities.Some? &&
            Join(m.architecture.value.inputModalities.value, "/") != "" ==>
              Card.ModalityLabel(m) == Join(m.architecture.value.inputModalities.value, "/") &&
              ModalityCell(InputModalities(m)) == Tags(m.architecture.value.inputModalities.value)
    ensures m.architecture.Some? && m.architecture.value.modality.GetOr("") == "" &&
            m.architecture.value.inputModalities == Some([]) ==>
              Card.ModalityLabel(m) == "text" && ModalityCell(InputModalities(m)) == Tags([])
    ensures m.architecture.Some? && m.architecture.value.modality.GetOr("") != "" &&
            m.architecture.value.inputModalities.None? ==>
              Card.ModalityLabel(m) == m.architecture.value.modality.value &&
              ModalityCell(InputModalities(m)) == Placeholder("Text")
  {
    if m.architecture.Some? && m.architecture.value.inputModalities == Some([]) {
      JoinEmptyIff(m.architecture.value.inputModalities.value, "/");
    }
  }
}
