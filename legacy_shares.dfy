/** The older share records of `src/shares/types.rs`: the same four
    sub-records as the `scraper` crate, but every field holds a value, the
    type's default standing in for a missing or unreadable one.

    `select_for_prop` of the older crate (`src/shares/selectors.rs`) is not
    part of this model: the table is given as the element it yields for each
    property name, `None` when it yields none. The `*_or_default` helpers the
    file imports are not in `src/shares/parsers.rs`; they are taken to be the
    `DefaultParse` impls of that file. */
module LegacyShares {
  import opened Common
  import opened Numbers
  import opened Dates
  import opened Isins
  import Parsers
  import Models
  import LegacyIsins

  /** A table: the element found for each property name. */
  type Lookup = string -> Option<Parsers.Element>

  datatype PriceDateReference = PriceDateReference(price: Float, date: Date)

  datatype PriceDateTimeReference = PriceDateTimeReference(price: Float, datetime: DateTime)

  const DEFAULT_PRICE_DATE := PriceDateReference(Finite(0.0), DefaultDate)

  const DEFAULT_PRICE_DATE_TIME := PriceDateTimeReference(Finite(0.0), DefaultDateTime)

  datatype ShareDetails = ShareDetails(isin: string, idStrumento: Float, codiceAlfanumerico: string)

  datatype MarketInformation = MarketInformation(
    isin: string,
    superSector: string,
    mercatoSegmento: string,
    capitalizzazioneDiMercato: Float,
    lottoMinimo: Float)

  datatype PriceData = PriceData(
    isin: string,
    faseDiMercato: string,
    prezzoUltimoContratto: Float,
    varPercentuale: Float,
    varAssoluta: Float,
    prMedioProgr: Float,
    dataOraUltimoContratto: DateTime,
    quantitaUltimo: Float,
    quantitaTotale: Float,
    numeroContratti: nat,
    controvalore: Float,
    maxOggi: Float,
    maxAnno: PriceDateReference,
    minOggi: Float,
    minAnno: PriceDateReference,
    chiusuraPrecedente: Float,
    prezzoRiferimento: PriceDateTimeReference,
    prezzoUfficiale: PriceDateReference,
    aperturaOdierna: Float)

  datatype PerformanceMetrics = PerformanceMetrics(
    isin: string,
    performance1Mese: Float,
    performance6Mesi: Float,
    performance1Anno: Float)

  datatype Share = Share(
    shareId: LegacyIsins.ShareIsin,
    shareDetails: ShareDetails,
    marketInformation: MarketInformation,
    priceData: PriceData,
    performanceMetrics: PerformanceMetrics)
  {
    /** All four sub-records carry the same ISIN string. */
    predicate SameIsin(code: string) {
      && shareDetails.isin == code && marketInformation.isin == code
      && priceData.isin == code && performanceMetrics.isin == code
    }
  }

  // The derived defaults: 0 for numbers, "N/A" for the marked strings.

  const DEFAULT_SHARE_DETAILS := ShareDetails("", Finite(0.0), "N/A")

  const DEFAULT_MARKET_INFORMATION := MarketInformation("", "N/A", "N/A", Finite(0.0), Finite(0.0))

  const DEFAULT_PERFORMANCE_METRICS := PerformanceMetrics("", Finite(0.0), Finite(0.0), Finite(0.0))

  // One field each: the element's default parse, or the type's default
  // when the table has no element for the property.

  function FloatField(find: Lookup, prop: string): (r: Float)
    ensures find(prop).None? ==> r == Finite(0.0)
    ensures find(prop).Some? ==> r == Parsers.SafeParseFloat(find(prop).value).GetOr(Finite(0.0))
  {
    find(prop).Map(Parsers.DefaultParseFloat).GetOr(Finite(0.0))
  }

  /** A missing element gives `""`; an element without text gives `"N/A"`. */
  function StringField(find: Lookup, prop: string): (r: string)
    ensures find(prop).None? ==> r == ""
    ensures find(prop).Some? && find(prop).value.firstText.None? ==> r == "N/A"
    ensures find(prop).Some? && find(prop).value.firstText.Some? ==> r == find(prop).value.firstText.value
  {
    find(prop).Map(Parsers.DefaultParseString).GetOr("")
  }

  function DateTimeField(find: Lookup, prop: string): (r: DateTime)
    ensures find(prop).None? ==> r == DefaultDateTime
    ensures find(prop).Some? ==> r == Parsers.SafeParseDateTime(find(prop).value).GetOr(DefaultDateTime)
  {
    find(prop).Map(Parsers.DefaultParseDateTime).GetOr(DefaultDateTime)
  }

  /** The value is an unsigned 64-bit number, so `as u64` leaves it alone. */
  function CountField(find: Lookup, prop: string): (r: nat)
    ensures r < U64_BOUND
    ensures find(prop).None? ==> r == 0
    ensures find(prop).Some? ==> r == Parsers.SafeParseU64(find(prop).value).GetOr(0)
  {
    find(prop).Map(Parsers.DefaultParseU64).GetOr(0)
  }

  /** `PriceDateReference::from_element`: `None` without `" - "`; otherwise
      the parts before and after it, an unreadable price as 0 and an
      unreadable date as the default date. */
  function PriceDateFromElement(e: Parsers.Element): (r: Option<PriceDateReference>)
    ensures r.None? <==> !Contains(Parsers.DefaultParseString(e), " - ")
  {
    match SplitOnce(Parsers.DefaultParseString(e), " - ")
    case None => None
    case Some((price, date)) =>
      Some(PriceDateReference(Parsers.ParseFloat(price).GetOr(Finite(0.0)), Parsers.ParseDate(date).GetOr(DefaultDate)))
  }

  /** `PriceDateTimeReference::from_element`: split at the first `-`, both
      sides trimmed, each defaulting when unreadable. */
  function PriceDateTimeFromElement(e: Parsers.Element): (r: Option<PriceDateTimeReference>)
    ensures r.None? <==> !Contains(Parsers.DefaultParseString(e), "-")
  {
    match SplitOnce(Parsers.DefaultParseString(e), "-")
    case None => None
    case Some((price, datetime)) =>
      Some(PriceDateTimeReference(Parsers.ParseFloat(Trim(price)).GetOr(Finite(0.0)),
                                  Parsers.ParseDatetime(Trim(datetime)).GetOr(DefaultDateTime)))
  }

  /** A defaulted reference: the newer parser's optional parts with the
      defaults filled in. */
  function FillPriceDate(r: Parsers.PriceDateReference): PriceDateReference {
    PriceDateReference(r.price.GetOr(Finite(0.0)), r.date.GetOr(DefaultDate))
  }

  function FillPriceDateTime(r: Parsers.PriceDateTimeReference): PriceDateTimeReference {
    PriceDateTimeReference(r.price.GetOr(Finite(0.0)), r.datetime.GetOr(DefaultDateTime))
  }

  /** The older composite parsers split and read exactly as the newer
      `SafeParse` ones, and only fill in the parts that did not parse. */
  lemma CompositesAgree(e: Parsers.Element)
    ensures PriceDateFromElement(e).None? <==> Parsers.SafeParsePriceDate(e).None?
    ensures PriceDateFromElement(e).Some? ==> PriceDateFromElement(e).value == FillPriceDate(Parsers.SafeParsePriceDate(e).value)
    ensures PriceDateTimeFromElement(e).None? <==> Parsers.SafeParsePriceDateTime(e).None?
    ensures PriceDateTimeFromElement(e).Some? ==> PriceDateTimeFromElement(e).value == FillPriceDateTime(Parsers.SafeParsePriceDateTime(e).value)
  {
  }

  /** A composite field: the reference read from the element, or the
      default reference when the element is missing or holds no separator. */
  function PriceDateField(find: Lookup, prop: string): (r: PriceDateReference)
    ensures find(prop).None? ==> r == DEFAULT_PRICE_DATE
    ensures find(prop).Some? && !Contains(Parsers.DefaultParseString(find(prop).value), " - ") ==> r == DEFAULT_PRICE_DATE
    ensures find(prop).Some? && Contains(Parsers.DefaultParseString(find(prop).value), " - ") ==>
      r == FillPriceDate(Parsers.SafeParsePriceDate(find(prop).value).value)
  {
    match find(prop)
    case None => DEFAULT_PRICE_DATE
    case Some(e) => CompositesAgree(e); PriceDateFromElement(e).GetOr(DEFAULT_PRICE_DATE)
  }

  function PriceDateTimeField(find: Lookup, prop: string): (r: PriceDateTimeReference)
    ensures find(prop).None? ==> r == DEFAULT_PRICE_DATE_TIME
    ensures find(prop).Some? && !Contains(Parsers.DefaultParseString(find(prop).value), "-") ==> r == DEFAULT_PRICE_DATE_TIME
    ensures find(prop).Some? && Contains(Parsers.DefaultParseString(find(prop).value), "-") ==>
      r == FillPriceDateTime(Parsers.SafeParsePriceDateTime(find(prop).value).value)
  {
    match find(prop)
    case None => DEFAULT_PRICE_DATE_TIME
    case Some(e) => CompositesAgree(e); PriceDateTimeFromElement(e).GetOr(DEFAULT_PRICE_DATE_TIME)
  }

  // The sub-records' `from_element`: always `Some`, so the derived defaults
  // of the records themselves are never used by `Share::from_element`.

  function ShareDetailsFromElement(isin: string, find: Lookup): (r: Option<ShareDetails>)
    ensures r.Some? && r.value.isin == isin
  {
    Some(ShareDetails(isin, FloatField(find, "id_strumento"), StringField(find, "codice_alfanumerico")))
  }

  function MarketInformationFromElement(isin: string, find: Lookup): (r: Option<MarketInformation>)
    ensures r.Some? && r.value.isin == isin
  {
    Some(MarketInformation(
      isin,
      StringField(find, "super_sector"),
      StringField(find, "mercato_segmento"),
      FloatField(find, "capitalizzazione_di_mercato"),
      FloatField(find, "lotto_minimo")))
  }

  function PriceDataFromElement(isin: string, find: Lookup): (r: Option<PriceData>)
    ensures r.Some? && r.value.isin == isin
  {
    Some(PriceData(
      isin,
      StringField(find, "fase_di_mercato"),
      FloatField(find, "prezzo_ultimo_contratto"),
      FloatField(find, "var_percentuale"),
      FloatField(find, "var_assoluta"),
      FloatField(find, "pr_medio_progr"),
      DateTimeField(find, "data_ora_ultimo_contratto"),
      FloatField(find, "quantita_ultimo"),
      FloatField(find, "quantita_totale"),
      CountField(find, "numero_contratti"),
      FloatField(find, "controvalore"),
      FloatField(find, "max_oggi"),
      PriceDateField(find, "max_anno"),
      FloatField(find, "min_oggi"),
      PriceDateField(find, "min_anno"),
      FloatField(find, "chiusura_precedente"),
      PriceDateTimeField(find, "prezzo_riferimento"),
      PriceDateField(find, "prezzo_ufficiale"),
      FloatField(find, "apertura_odierna")))
  }

  function PerformanceMetricsFromElement(isin: string, find: Lookup): (r: Option<PerformanceMetrics>)
    ensures r.Some? && r.value.isin == isin
  {
    Some(PerformanceMetrics(
      isin,
      FloatField(find, "performance_1_mese"),
      FloatField(find, "performance_6_mesi"),
      FloatField(find, "performance_1_anno")))
  }

  /** The default price data: every number 0, the phase `"N/A"`, the dates
      the default date. */
  function DefaultPriceData(): PriceData {
    PriceData("", "N/A", Finite(0.0), Finite(0.0), Finite(0.0), Finite(0.0), DefaultDateTime,
      Finite(0.0), Finite(0.0), 0, Finite(0.0), Finite(0.0), DEFAULT_PRICE_DATE, Finite(0.0),
      DEFAULT_PRICE_DATE, Finite(0.0), DEFAULT_PRICE_DATE_TIME, DEFAULT_PRICE_DATE, Finite(0.0))
  }

  /** `Share::from_element`: the four sub-records read from the same table
      with the ISIN rendered once. */
  function ShareFromElement(si: LegacyIsins.ShareIsin, find: Lookup): (r: Share)
    ensures r.shareId == si
    ensures r.SameIsin(GetStr(si.isin))
  {
    var isin := GetStr(si.isin);
    Share(
      si,
      ShareDetailsFromElement(isin, find).GetOr(DEFAULT_SHARE_DETAILS),
      MarketInformationFromElement(isin, find).GetOr(DEFAULT_MARKET_INFORMATION),
      PriceDataFromElement(isin, find).GetOr(DefaultPriceData()),
      PerformanceMetricsFromElement(isin, find).GetOr(DEFAULT_PERFORMANCE_METRICS))
  }

  /** A table with no elements at all gives every number 0, every string
      `""` and every date and reference its default: not the `"N/A"` of the
      records' derived defaults. */
  lemma EmptyTable(si: LegacyIsins.ShareIsin)
    ensures var s := ShareFromElement(si, (p: string) => None);
      && s.shareDetails == ShareDetails(GetStr(si.isin), Finite(0.0), "")
      && s.marketInformation == MarketInformation(GetStr(si.isin), "", "", Finite(0.0), Finite(0.0))
      && s.priceData.faseDiMercato == "" && s.priceData.numeroContratti == 0
      && s.priceData.maxAnno == DEFAULT_PRICE_DATE && s.priceData.prezzoRiferimento == DEFAULT_PRICE_DATE_TIME
      && s.priceData.dataOraUltimoContratto == DefaultDateTime
      && s.performanceMetrics == PerformanceMetrics(GetStr(si.isin), Finite(0.0), Finite(0.0), Finite(0.0))
  {
  }

  // `From<ShareFullInfo> for Share`

  /** The older conversion: each `None` column replaced by its type's
      default; the code is parsed for the `ShareIsin` as written. */
  function ShareFromFullInfo(info: Models.ShareFullInfo): (r: Result<Share, SlicePanic>)
    ensures r.Err? <==> New(info.isin).Err?
    ensures r.Ok? ==> r.value.SameIsin(info.isin)
    ensures r.Ok? ==> r.value.shareId == LegacyIsins.ShareIsin(info.shareName.GetOr(""), New(info.isin).value.GetOr(DefaultIsin))
    ensures r.Ok? ==> r.value.priceData.numeroContratti == Models.I32AsU64(info.numeroContratti.GetOr(0))
  {
    match New(info.isin)
    case Err(p) => Err(p)
    case Ok(code) =>
      Ok(Share(
        LegacyIsins.ShareIsin(info.shareName.GetOr(""), code.GetOr(DefaultIsin)),
        ShareDetails(info.isin, info.idStrumento.GetOr(Finite(0.0)), info.codiceAlfanumerico.GetOr("")),
        MarketInformation(
          info.isin,
          info.superSector.GetOr(""),
          info.mercatoSegmento.GetOr(""),
          info.capitalizzazioneDiMercato.GetOr(Finite(0.0)),
          info.lottoMinimo.GetOr(Finite(0.0))),
        PriceData(
          info.isin,
          info.faseDiMercato.GetOr(""),
          info.prezzoUltimoContratto.GetOr(Finite(0.0)),
          info.varPercentuale.GetOr(Finite(0.0)),
          info.varAssoluta.GetOr(Finite(0.0)),
          info.prMedioProgr.GetOr(Finite(0.0)),
          info.dataOraUltimoContratto.GetOr(DefaultDateTime),
          info.quantitaUltimo.GetOr(Finite(0.0)),
          info.quantitaTotale.GetOr(Finite(0.0)),
          Models.I32AsU64(info.numeroContratti.GetOr(0)),
          info.controvalore.GetOr(Finite(0.0)),
          info.maxOggi.GetOr(Finite(0.0)),
          PriceDateReference(info.maxAnno.GetOr(Finite(0.0)), info.maxAnnoDate.GetOr(DefaultDate)),
          info.minOggi.GetOr(Finite(0.0)),
          PriceDateReference(info.minAnno.GetOr(Finite(0.0)), info.minAnnoDate.GetOr(DefaultDate)),
          info.chiusuraPrecedente.GetOr(Finite(0.0)),
          PriceDateTimeReference(info.prezzoRiferimento.GetOr(Finite(0.0)), info.dataOraPrezzoRiferimento.GetOr(DefaultDateTime)),
          PriceDateReference(info.prezzoUfficiale.GetOr(Finite(0.0)), info.dataPrezzoUfficiale.GetOr(DefaultDate)),
          info.aperturaOdierna.GetOr(Finite(0.0))),
        PerformanceMetrics(
          info.isin,
          info.performance1Mese.GetOr(Finite(0.0)),
          info.performance6Mesi.GetOr(Finite(0.0)),
          info.performance1Anno.GetOr(Finite(0.0)))))
  }

  /** A share of the newer crate with its `None` fields replaced by the
      defaults of the older one. */
  function Filled(s: Models.Share): Share {
    var d := s.shareDetails;
    var m := s.marketInformation;
    var p := s.priceData;
    var f := s.performanceMetrics;
    Share(
      LegacyIsins.ShareIsin(s.shareId.shareName, s.shareId.isin),
      ShareDetails(d.isin, d.idStrumento.GetOr(Finite(0.0)), d.codiceAlfanumerico.GetOr("")),
      MarketInformation(m.isin, m.superSector.GetOr(""), m.mercatoSegmento.GetOr(""),
        m.capitalizzazioneDiMercato.GetOr(Finite(0.0)), m.lottoMinimo.GetOr(Finite(0.0))),
      PriceData(
        p.isin, p.faseDiMercato.GetOr(""), p.prezzoUltimoContratto.GetOr(Finite(0.0)),
        p.varPercentuale.GetOr(Finite(0.0)), p.varAssoluta.GetOr(Finite(0.0)), p.prMedioProgr.GetOr(Finite(0.0)),
        p.dataOraUltimoContratto.GetOr(DefaultDateTime), p.quantitaUltimo.GetOr(Finite(0.0)),
        p.quantitaTotale.GetOr(Finite(0.0)), p.numeroContratti.GetOr(0), p.controvalore.GetOr(Finite(0.0)),
        p.maxOggi.GetOr(Finite(0.0)), FillPriceDate(p.maxAnno.GetOr(Parsers.PriceDateReference(None, None))),
        p.minOggi.GetOr(Finite(0.0)), FillPriceDate(p.minAnno.GetOr(Parsers.PriceDateReference(None, None))),
        p.chiusuraPrecedente.GetOr(Finite(0.0)),
        FillPriceDateTime(p.prezzoRiferimento.GetOr(Parsers.PriceDateTimeReference(None, None))),
        FillPriceDate(p.prezzoUfficiale.GetOr(Parsers.PriceDateReference(None, None))),
        p.aperturaOdierna.GetOr(Finite(0.0))),
      PerformanceMetrics(f.isin, f.performance1Mese.GetOr(Finite(0.0)),
        f.performance6Mesi.GetOr(Finite(0.0)), f.performance1Anno.GetOr(Finite(0.0))))
  }

  /** The older conversion is the newer one with the defaults filled in:
      both fail on the same rows, and `None` becomes the type's default. */
  lemma FullInfoAgrees(info: Models.ShareFullInfo)
    ensures ShareFromFullInfo(info).Err? <==> Models.ShareFromFullInfo(info).Err?
    ensures ShareFromFullInfo(info).Ok? ==> ShareFromFullInfo(info).value == Filled(Models.ShareFromFullInfo(info).value)
  {
  }

  /** A row whose every optional column is `None` converts to zeros, empty
      strings and default dates throughout, with the name `""`. */
  lemma FullInfoAllMissing(isin: string)
    requires New(isin).Ok?
    ensures var info := Models.ShareFullInfo(isin, None, None, None, None, None, None, None, None,
        None, None, None, None, None, None, None, None, None, None, None, None, None, None, None,
        None, None, None, None, None, None, None, None, None);
      ShareFromFullInfo(info) == Ok(Share(
        LegacyIsins.ShareIsin("", New(isin).value.GetOr(DefaultIsin)),
        ShareDetails(isin, Finite(0.0), ""),
        MarketInformation(isin, "", "", Finite(0.0), Finite(0.0)),
        DefaultPriceData().(isin := isin, faseDiMercato := ""),
        PerformanceMetrics(isin, Finite(0.0), Finite(0.0), Finite(0.0))))
  {
  }
}
