/**
 * Turning a recorded answer back into the text a reader sees: option
 * indices resolved to labels and joined, and a unit path resolved to the
 * place names of the geography table.
 */
module Labels {
  import opened Wrappers
  import opened Objects
  import opened Decimal
  import opened SurveyTypes
  import UnitView

  /** `parts.join(sep)`. */
  function Join(parts: seq<string>, sep: string): (r: string)
    ensures parts == [] ==> r == ""
    ensures |parts| == 1 ==> r == parts[0]
  {
    if parts == [] then ""
    else if |parts| == 1 then parts[0]
    else Join(parts[..|parts| - 1], sep) + sep + parts[|parts| - 1]
  }

  /** `values.map((v) => _.get(params, [v], ''))`. */
  function ResolveAll(params: Option<seq<string>>, values: seq<string>): (r: seq<string>)
    ensures |r| == |values|
    ensures forall i :: 0 <= i < |r| ==> r[i] == ResolveLabel(params, values[i])
  {
    seq(|values|, i requires 0 <= i < |values| => ResolveLabel(params, values[i]))
  }

  /** A checkbox answer as text: each recorded value's label, joined with `", "`. */
  function CheckboxText(params: Option<seq<string>>, values: seq<string>): string {
    Join(ResolveAll(params, values), ", ")
  }

  /**
   * A checkbox answer recorded by index strings reads back as the labels
   * of those options, in the order they were checked.
   */
  lemma CheckboxTextOfIndices(labels: seq<string>, picked: seq<nat>)
    requires forall j :: 0 <= j < |picked| ==> picked[j] < |labels|
    ensures CheckboxText(Some(labels), seq(|picked|, j requires 0 <= j < |picked| => IndexString(picked[j])))
         == Join(seq(|picked|, j requires 0 <= j < |picked| => labels[picked[j]]), ", ")
  {
    var values := seq(|picked|, j requires 0 <= j < |picked| => IndexString(picked[j]));
    forall j | 0 <= j < |picked|
      ensures ResolveAll(Some(labels), values)[j] == labels[picked[j]]
    {
      ParseIndexString(picked[j]);
    }
    assert ResolveAll(Some(labels), values) == seq(|picked|, j requires 0 <= j < |picked| => labels[picked[j]]);
  }

  /**
   * A unit answer as text: `"<province> - <district> - <ward>"`, each name
   * looked up along the recorded path and `''` where the path leads nowhere.
   */
  function UnitText(cities: Obj<City>, path: seq<string>): string {
    var l := UnitView.LevelsOf(Some(path));
    NameOr(Province(cities, l.province)) + " - "
      + NameOr(District(cities, l.province, l.district)) + " - "
      + NameOr(Ward(cities, l.province, l.district, l.ward))
  }

  /** An empty path names nothing at any level. */
  lemma UnitTextEmpty(cities: Obj<City>)
    ensures UnitText(cities, []) == " -  - "
  {
  }

  /**
   * A province picked from the province list shows its name first, followed
   * by two empty levels.
   */
  lemma UnitTextProvince(cities: Obj<City>, i: nat)
    requires Wf(cities) && i < |cities|
    ensures UnitText(cities, [cities[i].0]) == cities[i].1.name + " -  - "
  {
    UnitView.EntryOptionSelects(cities, i);
  }
}
