/** The share records of the `scraper` crate: four sub-records, each the
    ISIN string plus optional fields, and the `Share` that groups them.

    The records' timestamps (`updated_at`, set from the clock) are not part
    of this model. */
module Models {
  import opened Common
  import opened Numbers
  import opened Dates
  import opened Isins
  import opened Parsers
  import opened Page
  import opened PropertySelectors

  datatype ShareDetails = ShareDetails(
    isin: string,
    idStrumento: Option<Float>,
    codiceAlfanumerico: Option<string>)
  {
    predicate Blank() {
      idStrumento.None? && codiceAlfanumerico.None?
    }
  }

  datatype MarketInformation = MarketInformation(
    isin: string,
    superSector: Option<string>,
    mercatoSegmento: Option<string>,
    capitalizzazioneDiMercato: Option<Float>,
    lottoMinimo: Option<Float>)
  {
    predicate Blank() {
      superSector.None? && mercatoSegmento.None? && capitalizzazioneDiMercato.None? && lottoMinimo.None?
    }
  }

  datatype PriceData = PriceData(
    isin: string,
    faseDiMercato: Option<string>,
    prezzoUltimoContratto: Option<Float>,
    varPercentuale: Option<Float>,
    varAssoluta: Option<Float>,
    prMedioProgr: Option<Float>,
    dataOraUltimoContratto: Option<DateTime>,
    quantitaUltimo: Option<Float>,
    quantitaTotale: Option<Float>,
    numeroContratti: Option<nat>,
    controvalore: Option<Float>,
    maxOggi: Option<Float>,
    maxAnno: Option<PriceDateReference>,
    minOggi: Option<Float>,
    minAnno: Option<PriceDateReference>,
    chiusuraPrecedente: Option<Float>,
    prezzoRiferimento: Option<PriceDateTimeReference>,
    prezzoUfficiale: Option<PriceDateReference>,
    aperturaOdierna: Option<Float>)
  {
    predicate Blank() {
      && faseDiMercato.None? && prezzoUltimoContratto.None? && varPercentuale.None?
      && varAssoluta.None? && prMedioProgr.None? && dataOraUltimoContratto.None?
      && quantitaUltimo.None? && quantitaTotale.None? && numeroContratti.None?
      && controvalore.None? && maxOggi.None? && maxAnno.None? && minOggi.None?
      && minAnno.None? && chiusuraPrecedente.None? && prezzoRiferimento.None?
      && prezzoUfficiale.None? && aperturaOdierna.None?
    }
  }

  datatype PerformanceMetrics = PerformanceMetrics(
    isin: string,
    performance1Mese: Option<Float>,
    performance6Mesi: Option<Float>,
    performance1Anno: Option<Float>)
  {
    predicate Blank() {
      performance1Mese.None? && performance6Mesi.None? && performance1Anno.None?
    }
  }

  datatype Share = Share(
    shareId: ShareIsin,
    shareDetails: ShareDetails,
    marketInformation: MarketInformation,
    priceData: PriceData,
    performanceMetrics: PerformanceMetrics)
  {
    /** Every field of every sub-record is `None`. */
    predicate Blank() {
      shareDetails.Blank() && marketInformation.Blank() && priceData.Blank() && performanceMetrics.Blank()
    }

    /** All four sub-records carry the same ISIN string. */
    predicate SameIsin(code: string) {
      && shareDetails.isin == code && marketInformation.isin == code
      && priceData.isin == code && performanceMetrics.isin == code
    }
  }

  /** One generated field: the property's value cell, read by the field
      type's `safe_parse`; `None` when the cell is missing or does not parse. */
  function Field<T>(sel: PropertySelector, prop: string, parse: Element -> Option<T>): (r: Option<T>)
    ensures r.Some? <==> sel.GetProperty(prop).Some? && parse(sel.GetProperty(prop).value).Some?
    ensures r.Some? ==> r == parse(sel.GetProperty(prop).value)
  {
    sel.GetProperty(prop).AndThen(parse)
  }

  /** `Isin::to_string`, taken to be the `get_str` rendering. */
  function IsinString(si: ShareIsin): string {
    GetStr(si.isin)
  }

  function ShareDetailsFromSelector(si: ShareIsin, sel: PropertySelector): (r: ShareDetails)
    ensures r.isin == IsinString(si)
  {
    ShareDetails(
      IsinString(si),
      Field(sel, "id_strumento", SafeParseFloat),
      Field(sel, "codice_alfanumerico", SafeParseString))
  }

  function ShareDetailsWithIsin(si: ShareIsin): (r: ShareDetails)
    ensures r.isin == IsinString(si) && r.Blank()
  {
    ShareDetails(IsinString(si), None, None)
  }

  function MarketInformationFromSelector(si: ShareIsin, sel: PropertySelector): (r: MarketInformation)
    ensures r.isin == IsinString(si)
  {
    MarketInformation(
      IsinString(si),
      Field(sel, "super_sector", SafeParseString),
      Field(sel, "mercato_segmento", SafeParseString),
      Field(sel, "capitalizzazione_di_mercato", SafeParseFloat),
      Field(sel, "lotto_minimo", SafeParseFloat))
  }

  function MarketInformationWithIsin(si: ShareIsin): (r: MarketInformation)
    ensures r.isin == IsinString(si) && r.Blank()
  {
    MarketInformation(IsinString(si), None, None, None, None)
  }

  function PriceDataFromSelector(si: ShareIsin, sel: PropertySelector): (r: PriceData)
    ensures r.isin == IsinString(si)
  {
    PriceData(
      IsinString(si),
      Field(sel, "fase_di_mercato", SafeParseString),
      Field(sel, "prezzo_ultimo_contratto", SafeParseFloat),
      Field(sel, "var_percentuale", SafeParseFloat),
      Field(sel, "var_assoluta", SafeParseFloat),
      Field(sel, "pr_medio_progr", SafeParseFloat),
      Field(sel, "data_ora_ultimo_contratto", SafeParseDateTime),
      Field(sel, "quantita_ultimo", SafeParseFloat),
      Field(sel, "quantita_totale", SafeParseFloat),
      Field(sel, "numero_contratti", SafeParseU64),
      Field(sel, "controvalore", SafeParseFloat),
      Field(sel, "max_oggi", SafeParseFloat),
      Field(sel, "max_anno", SafeParsePriceDate),
      Field(sel, "min_oggi", SafeParseFloat),
      Field(sel, "min_anno", SafeParsePriceDate),
      Field(sel, "chiusura_precedente", SafeParseFloat),
      Field(sel, "prezzo_riferimento", SafeParsePriceDateTime),
      Field(sel, "prezzo_ufficiale", SafeParsePriceDate),
      Field(sel, "apertura_odierna", SafeParseFloat))
  }

  function PriceDataWithIsin(si: ShareIsin): (r: PriceData)
    ensures r.isin == IsinString(si) && r.Blank()
  {
    PriceData(IsinString(si), None, None, None, None, None, None, None, None, None, None, None, None, None, None, None, None, None, None)
  }

  function PerformanceMetricsFromSelector(si: ShareIsin, sel: PropertySelector): (r: PerformanceMetrics)
    ensures r.isin == IsinString(si)
  {
    PerformanceMetrics(
      IsinString(si),
      Field(sel, "performance_1_mese", SafeParseFloat),
      Field(sel, "performance_6_mesi", SafeParseFloat),
      Field(sel, "performance_1_anno", SafeParseFloat))
  }

  function PerformanceMetricsWithIsin(si: ShareIsin): (r: PerformanceMetrics)
    ensures r.isin == IsinString(si) && r.Blank()
  {
    PerformanceMetrics(IsinString(si), None, None, None)
  }

  /** `Share::with_isin`: the identity and four blank sub-records, all from
      the same `ShareIsin`. */
  function ShareWithIsin(si: ShareIsin): (r: Share)
    ensures r.shareId == si && r.SameIsin(IsinString(si)) && r.Blank()
  {
    Share(si, ShareDetailsWithIsin(si), MarketInformationWithIsin(si), PriceDataWithIsin(si), PerformanceMetricsWithIsin(si))
  }

  /** `Share::from_selector`: the identity and the four sub-records read
      through the same selector. */
  function ShareFromSelector(si: ShareIsin, sel: PropertySelector): (r: Share)
    ensures r.shareId == si && r.SameIsin(IsinString(si))
  {
    Share(
      si,
      ShareDetailsFromSelector(si, sel),
      MarketInformationFromSelector(si, sel),
      PriceDataFromSelector(si, sel),
      PerformanceMetricsFromSelector(si, sel))
  }

  /** A selector that found nothing gives the identity-only share. */
  lemma FromEmptySelector(si: ShareIsin)
    ensures ShareFromSelector(si, EMPTY) == ShareWithIsin(si)
  {
  }

  /** With a valid code the sub-records' ISIN string is the code the share
      was scraped for. */
  lemma IsinStringOfValidCode(name: string, code: string)
    requires New(code).Ok? && New(code).value.Some?
    ensures IsinString(ShareIsin(name, New(code).value.value)) == code
  {
    NewThenGetStr(code);
  }

  /** A field read from a page is the property's value cell, from the last
      row whose label holds one of the property's terms, parsed. */
  lemma FieldOfPage<T>(doc: Document, i: nat, parse: Element -> Option<T>)
    requires i < |MAPPINGS|
    ensures Field(Build(doc), MAPPINGS[i].prop, parse) ==
      match LastMatching(MAPPINGS[i].terms, Rows(doc))
      case None => None
      case Some(r) => FirstValue(r).AndThen(parse)
  {
    GetPropertyOfBuild(doc, i);
  }

  /** `Share::from_row`: the identity, the four sub-records and the
      timestamp decoded from one database row, stopping at the first column
      group that fails. */
  function ShareFromRow<E, U>(
    shareId: Result<ShareIsin, E>,
    details: Result<ShareDetails, E>,
    market: Result<MarketInformation, E>,
    price: Result<PriceData, E>,
    performance: Result<PerformanceMetrics, E>,
    updatedAt: Result<U, E>): (r: Result<Share, E>)
    ensures r.Ok? <==> shareId.Ok? && details.Ok? && market.Ok? && price.Ok? && performance.Ok? && updatedAt.Ok?
    ensures r.Ok? ==> r.value == Share(shareId.value, details.value, market.value, price.value, performance.value)
    ensures shareId.Err? ==> r == Err(shareId.error)
    ensures shareId.Ok? && details.Err? ==> r == Err(details.error)
    ensures shareId.Ok? && details.Ok? && market.Err? ==> r == Err(market.error)
    ensures shareId.Ok? && details.Ok? && market.Ok? && price.Err? ==> r == Err(price.error)
    ensures shareId.Ok? && details.Ok? && market.Ok? && price.Ok? && performance.Err? ==> r == Err(performance.error)
    ensures shareId.Ok? && details.Ok? && market.Ok? && price.Ok? && performance.Ok? && updatedAt.Err? ==> r == Err(updatedAt.error)
  {
    match shareId
    case Err(e) => Err(e)
    case Ok(id) =>
      match details
      case Err(e) => Err(e)
      case Ok(d) =>
        match market
        case Err(e) => Err(e)
        case Ok(m) =>
          match price
          case Err(e) => Err(e)
          case Ok(p) =>
            match performance
            case Err(e) => Err(e)
            case Ok(pm) =>
              match updatedAt
              case Err(e) => Err(e)
              case Ok(_) => Ok(Share(id, d, m, p, pm))
  }

  /** The joined database row of one share. */
  datatype ShareFullInfo = ShareFullInfo(
    isin: string,
    shareName: Option<string>,
    idStrumento: Option<Float>,
    codiceAlfanumerico: Option<string>,
    superSector: Option<string>,
    mercatoSegmento: Option<string>,
    capitalizzazioneDiMercato: Option<Float>,
    lottoMinimo: Option<Float>,
    faseDiMercato: Option<string>,
    prezzoUltimoContratto: Option<Float>,
    varPercentuale: Option<Float>,
    varAssoluta: Option<Float>,
    prMedioProgr: Option<Float>,
    dataOraUltimoContratto: Option<DateTime>,
    quantitaUltimo: Option<Float>,
    quantitaTotale: Option<Float>,
    numeroContratti: Option<I32>,
    controvalore: Option<Float>,
    maxOggi: Option<Float>,
    maxAnno: Option<Float>,
    maxAnnoDate: Option<Date>,
    minOggi: Option<Float>,
    minAnno: Option<Float>,
    minAnnoDate: Option<Date>,
    chiusuraPrecedente: Option<Float>,
    prezzoRiferimento: Option<Float>,
    dataOraPrezzoRiferimento: Option<DateTime>,
    prezzoUfficiale: Option<Float>,
    dataPrezzoUfficiale: Option<Date>,
    aperturaOdierna: Option<Float>,
    performance1Mese: Option<Float>,
    performance6Mesi: Option<Float>,
    performance1Anno: Option<Float>)

  /** Rust's `v as u64` on an `i32`: sign extension, so a negative value
      wraps around modulo 2^64. */
  function I32AsU64(v: I32): (r: nat)
    ensures r < U64_BOUND && (r - v) % U64_BOUND == 0
    ensures v >= 0 ==> r == v
  {
    if v < 0 then v + U64_BOUND else v
  }

  /** `From<ShareFullInfo> for Share`. `Isin::new` slices the code by bytes
      and panics on a character straddling a cut, hence the `Err`. */
  function ShareFromFullInfo(info: ShareFullInfo): (r: Result<Share, SlicePanic>)
    ensures r.Err? <==> New(info.isin).Err?
    ensures r.Ok? ==> r.value.SameIsin(info.isin)
    ensures r.Ok? ==> r.value.shareId.isin == New(info.isin).value.GetOr(DefaultIsin)
    ensures r.Ok? ==> r.value.shareId.shareName == info.shareName.GetOr("")
    ensures r.Ok? ==> (r.value.priceData.numeroContratti.None? <==> info.numeroContratti.None?)
    ensures r.Ok? ==>
      var p := r.value.priceData;
      && p.maxAnno == Some(PriceDateReference(info.maxAnno, info.maxAnnoDate))
      && p.minAnno == Some(PriceDateReference(info.minAnno, info.minAnnoDate))
      && p.prezzoRiferimento == Some(PriceDateTimeReference(info.prezzoRiferimento, info.dataOraPrezzoRiferimento))
      && p.prezzoUfficiale == Some(PriceDateReference(info.prezzoUfficiale, info.dataPrezzoUfficiale))
  {
    match New(info.isin)
    case Err(p) => Err(p)
    case Ok(code) =>
      Ok(Share(
        ShareIsin(info.shareName.GetOr(""), code.GetOr(DefaultIsin)),
        ShareDetails(info.isin, info.idStrumento, info.codiceAlfanumerico),
        MarketInformation(info.isin, info.superSector, info.mercatoSegmento, info.capitalizzazioneDiMercato, info.lottoMinimo),
        PriceData(
          info.isin,
          info.faseDiMercato,
          info.prezzoUltimoContratto,
          info.varPercentuale,
          info.varAssoluta,
          info.prMedioProgr,
          info.dataOraUltimoContratto,
          info.quantitaUltimo,
          info.quantitaTotale,
          info.numeroContratti.Map(I32AsU64),
          info.controvalore,
          info.maxOggi,
          Some(PriceDateReference(info.maxAnno, info.maxAnnoDate)),
          info.minOggi,
          Some(PriceDateReference(info.minAnno, info.minAnnoDate)),
          info.chiusuraPrecedente,
          Some(PriceDateTimeReference(info.prezzoRiferimento, info.dataOraPrezzoRiferimento)),
          Some(PriceDateReference(info.prezzoUfficiale, info.dataPrezzoUfficiale)),
          info.aperturaOdierna),
        PerformanceMetrics(info.isin, info.performance1Mese, info.performance6Mesi, info.performance1Anno)))
  }

  /** The row a share is stored as: the columns read back from the share's
      fields, the composites split into their price and date columns. */
  function FullInfoOf(s: Share): ShareFullInfo
    requires s.priceData.numeroContratti.Some? ==> s.priceData.numeroContratti.value <= I32_MAX
  {
    var p := s.priceData;
    ShareFullInfo(
      s.shareDetails.isin,
      Some(s.shareId.shareName),
      s.shareDetails.idStrumento,
      s.shareDetails.codiceAlfanumerico,
      s.marketInformation.superSector,
      s.marketInformation.mercatoSegmento,
      s.marketInformation.capitalizzazioneDiMercato,
      s.marketInformation.lottoMinimo,
      p.faseDiMercato,
      p.prezzoUltimoContratto,
      p.varPercentuale,
      p.varAssoluta,
      p.prMedioProgr,
      p.dataOraUltimoContratto,
      p.quantitaUltimo,
      p.quantitaTotale,
      p.numeroContratti.Map((n: nat) => if n <= I32_MAX then n as I32 else 0),
      p.controvalore,
      p.maxOggi,
      p.maxAnno.AndThen((r: PriceDateReference) => r.price),
      p.maxAnno.AndThen((r: PriceDateReference) => r.date),
      p.minOggi,
      p.minAnno.AndThen((r: PriceDateReference) => r.price),
      p.minAnno.AndThen((r: PriceDateReference) => r.date),
      p.chiusuraPrecedente,
      p.prezzoRiferimento.AndThen((r: PriceDateTimeReference) => r.price),
      p.prezzoRiferimento.AndThen((r: PriceDateTimeReference) => r.datetime),
      p.prezzoUfficiale.AndThen((r: PriceDateReference) => r.price),
      p.prezzoUfficiale.AndThen((r: PriceDateReference) => r.date),
      p.aperturaOdierna,
      s.performanceMetrics.performance1Mese,
      s.performanceMetrics.performance6Mesi,
      s.performanceMetrics.performance1Anno)
  }

  /** The conversion keeps every column: a row with a valid code, a name and
      a non-negative contract count converts to a share that is stored as
      that same row. */
  lemma FullInfoRoundTrip(info: ShareFullInfo)
    requires New(info.isin).Ok? && New(info.isin).value.Some?
    requires info.shareName.Some?
    requires info.numeroContratti.Some? ==> info.numeroContratti.value >= 0
    ensures ShareFromFullInfo(info).Ok?
    ensures FullInfoOf(ShareFromFullInfo(info).value) == info
  {
  }

  /** A missing name and an invalid code fall back to `""` and the default
      ISIN, while the sub-records keep the raw code. */
  lemma FullInfoDefaults(info: ShareFullInfo)
    requires New(info.isin).Ok? && New(info.isin).value.None? && info.shareName.None?
    ensures ShareFromFullInfo(info).Ok?
    ensures ShareFromFullInfo(info).value.shareId == ShareIsin("", DefaultIsin)
    ensures ShareFromFullInfo(info).value.SameIsin(info.isin)
  {
  }

  /** A negative contract count turns into a huge unsigned one. */
  lemma NegativeCountWraps(info: ShareFullInfo)
    requires New(info.isin).Ok? && info.numeroContratti == Some(-1)
    ensures ShareFromFullInfo(info).value.priceData.numeroContratti == Some(U64_BOUND - 1)
  {
  }
}
