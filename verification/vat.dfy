/**
 The `vat` validator: the `country` option names the routine that judges
 the value, `_` followed by the code in lower case.  The value carries the
 country prefix itself.
 */
module Vat {
  import opened Chars
  import opened VatWeighted
  import opened VatComposite

  /** The codes that have a routine; Greece has two, `gr` and `el`. */
  const Codes: set<string> := {
    "at", "be", "bg", "ch", "cy", "cz", "de", "dk", "ee", "es", "fi", "fr", "gb", "gr", "el", "hu",
    "hr", "ie", "it", "lt", "lu", "lv", "mt", "nl", "no", "pl", "pt", "ro", "rs", "se", "si", "sk"
  }

  /** The verdict of the routine `_code`, or `None` when there is no such routine. */
  function Routine(code: string, value: string): (r: Option<bool>)
    ensures r.Some? <==> code in Codes
  {
    match code
    case "at" => Some(AtValid(value))
    case "be" => Some(BeValid(value))
    case "bg" => Some(BgValid(value))
    case "ch" => Some(ChValid(value))
    case "cy" => Some(CyValid(value))
    case "cz" => Some(CzValid(value))
    case "de" => Some(DeValid(value))
    case "dk" => Some(DkValid(value))
    case "ee" => Some(EeValid(value))
    case "es" => Some(EsValid(value))
    case "fi" => Some(FiValid(value))
    case "fr" => Some(FrValid(value))
    case "gb" => Some(GbValid(value))
    case "gr" => Some(GrValid(value))
    case "el" => Some(ElValid(value))
    case "hu" => Some(HuValid(value))
    case "hr" => Some(HrValid(value))
    case "ie" => Some(IeValid(value))
    case "it" => Some(ItValid(value))
    case "lt" => Some(LtValid(value))
    case "lu" => Some(LuValid(value))
    case "lv" => Some(LvValid(value))
    case "mt" => Some(MtValid(value))
    case "nl" => Some(NlValid(value))
    case "no" => Some(NoValid(value))
    case "pl" => Some(PlValid(value))
    case "pt" => Some(PtValid(value))
    case "ro" => Some(RoValid(value))
    case "rs" => Some(RsValid(value))
    case "se" => Some(SeValid(value))
    case "si" => Some(SiValid(value))
    case "sk" => Some(SkValid(value))
    case _ => None
  }

  /** The `vat` validator.  `country` is the option, `""` when it is not
      set; the empty value, a missing option and a code without a routine
      all pass. */
  predicate VatValid(value: string, country: string) {
    value == [] || country == []
    || match Routine(LowerStr(country), value)
       case None => true
       case Some(ok) => ok
  }

  /** A code without a routine accepts everything. */
  lemma UnknownCountryAccepts(value: string, country: string)
    requires LowerStr(country) !in Codes
    ensures VatValid(value, country)
  {
  }

  /** The code is read without regard to case. */
  lemma CountryCaseIgnored(value: string, country: string)
    ensures VatValid(value, UpperStr(country)) == VatValid(value, country)
  {
    var u := UpperStr(country);
    assert LowerStr(u) == LowerStr(country) by {
      forall i | 0 <= i < |country|
        ensures LowerStr(u)[i] == LowerStr(country)[i]
      {
        assert u[i] == Upper(country[i]);
      }
    }
  }

  /** Greek numbers are judged alike under the codes `el` and `gr`. */
  lemma GreekCodesAgree(d: string)
    ensures VatValid("EL" + d, "el") == VatValid("GR" + d, "gr")
  {
    assert LowerStr("el") == "el" && LowerStr("gr") == "gr";
    ElIsGr(d);
  }
}
