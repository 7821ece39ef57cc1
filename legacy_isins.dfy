/** The older ISIN types of `src/isins/types.rs`. `Isin::new` and `get_str`
    are the same text as in the `scraper` crate and are `Isins.New` and
    `Isins.GetStr`; the older `ShareIsin` calls its name field `name`. */
module LegacyIsins {
  import opened Common
  import Isins

  datatype ShareIsin = ShareIsin(name: string, isin: Isins.Isin)

  /** The newer record with the same contents. */
  function Current(s: ShareIsin): Isins.ShareIsin {
    Isins.ShareIsin(s.name, s.isin)
  }

  /** The older `ShareIsin::new`: `None` for an empty name, otherwise the name
      paired with `Isin::new` of the code. */
  function NewShareIsin(name: string, isinStr: string): (r: Result<Option<ShareIsin>, Isins.SlicePanic>)
    ensures name == [] ==> r == Ok(None)
    ensures name != [] ==> (r.Ok? <==> Isins.New(isinStr).Ok?)
    ensures name != [] && r.Ok? ==> (r.value.Some? <==> Isins.New(isinStr).value.Some?)
    ensures r.Ok? && r.value.Some? ==> r.value.value == ShareIsin(name, Isins.New(isinStr).value.value)
    ensures r.Ok? && r.value.Some? ==> Isins.GetStr(r.value.value.isin) == isinStr
  {
    if name == [] then Ok(None)
    else match Isins.New(isinStr)
      case Err(p) => Err(p)
      case Ok(None) => Ok(None)
      case Ok(Some(isin)) =>
        Isins.NewThenGetStr(isinStr);
        Ok(Some(ShareIsin(name, isin)))
  }

  /** The older `ShareIsin::from_element`: the same link surgery and name
      lookup as the newer one. */
  function FromElement(a: Isins.Anchor): (r: Result<Option<ShareIsin>, Isins.SlicePanic>)
    ensures a.href.None? || a.nameSpan.None? ==> r == Ok(None)
    ensures a.href.Some? && a.nameSpan.Some? ==> r == NewShareIsin(a.nameSpan.value.GetOr(""), Isins.IsinFromHref(a.href.value))
  {
    match (a.href, a.nameSpan)
    case (Some(link), Some(text)) => NewShareIsin(text.GetOr(""), Isins.IsinFromHref(link))
    case _ => Ok(None)
  }

  /** The older and the newer constructors accept, reject and panic on the
      same inputs and build the same pair. */
  lemma NewShareIsinAgrees(name: string, isinStr: string)
    ensures NewShareIsin(name, isinStr).Ok? <==> Isins.NewShareIsin(name, isinStr).Ok?
    ensures NewShareIsin(name, isinStr).Ok? ==>
      (NewShareIsin(name, isinStr).value.Some? <==> Isins.NewShareIsin(name, isinStr).value.Some?)
    ensures NewShareIsin(name, isinStr).Ok? && NewShareIsin(name, isinStr).value.Some? ==>
      Current(NewShareIsin(name, isinStr).value.value) == Isins.NewShareIsin(name, isinStr).value.value
  {
  }

  /** The older and the newer `from_element` read every anchor alike. */
  lemma FromElementAgrees(a: Isins.Anchor)
    ensures FromElement(a).Ok? <==> Isins.FromElement(a).Ok?
    ensures FromElement(a).Ok? ==> (FromElement(a).value.Some? <==> Isins.FromElement(a).value.Some?)
    ensures FromElement(a).Ok? && FromElement(a).value.Some? ==>
      Current(FromElement(a).value.value) == Isins.FromElement(a).value.value
  {
    if a.href.Some? && a.nameSpan.Some? {
      NewShareIsinAgrees(a.nameSpan.value.GetOr(""), Isins.IsinFromHref(a.href.value));
    }
  }
}
