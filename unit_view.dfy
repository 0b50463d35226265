/**
 * The three-level unit widget (province, district, ward). Each level's
 * options come from the geography table under the levels above it, and a
 * choice rewrites the whole path, dropping the levels below it.
 */
module UnitView {
  import opened Wrappers
  import opened Objects
  import opened SurveyTypes
  import opened ResponseTypes
  import opened AnswerStore

  datatype Levels = Levels(province: Option<string>, district: Option<string>, ward: Option<string>)

  /** `const [province, district, ward] = value || []`. */
  function LevelsOf(value: Option<seq<string>>): (l: Levels)
    ensures value.None? ==> l == Levels(None, None, None)
  {
    var path := value.GetOr([]);
    Levels(
      if |path| > 0 then Some(path[0]) else None,
      if |path| > 1 then Some(path[1]) else None,
      if |path| > 2 then Some(path[2]) else None)
  }

  /** A level counts as chosen when it is truthy: present and not `''`. */
  predicate Chosen(level: Option<string>) {
    level.Some? && level.value != ""
  }

  /** `Object.entries(table).map(([key, {name}]) => ({value: key, label: name}))`. */
  function EntryOptions(table: Obj<City>): (r: seq<(string, string)>)
    ensures |r| == |table|
    ensures forall i :: 0 <= i < |r| ==> r[i].0 == table[i].0
  {
    seq(|table|, i requires 0 <= i < |table| => (table[i].0, table[i].1.name))
  }

  /** Each option names the table entry its value selects. */
  lemma EntryOptionSelects(table: Obj<City>, i: nat)
    requires Wf(table) && i < |table|
    ensures Get(table, EntryOptions(table)[i].0).Some?
    ensures Get(table, EntryOptions(table)[i].0).value.name == EntryOptions(table)[i].1
  {
    GetAt(table, i);
  }

  predicate IsOption(options: seq<(string, string)>, v: string) {
    exists i :: 0 <= i < |options| && options[i].0 == v
  }

  /** The province list: every top-level entry of the table. */
  function ProvinceOptions(cities: Obj<City>): seq<(string, string)> {
    EntryOptions(cities)
  }

  /**
   * The district list: none until a province is chosen, then the entries
   * of that province's districts (none when it has no districts). Reading
   * `cities[province].districts` fails when the province is not in the
   * table, so a chosen province must be one.
   */
  function DistrictOptions(cities: Obj<City>, value: Option<seq<string>>): (r: seq<(string, string)>)
    requires var p := LevelsOf(value).province; Chosen(p) ==> HasKey(cities, p.value)
    ensures !Chosen(LevelsOf(value).province) ==> r == []
    ensures var p := LevelsOf(value).province;
      Chosen(p) ==> r == EntryOptions(Get(cities, p.value).value.districts.GetOr([]))
    ensures forall v :: IsOption(r, v) ==>
      District(cities, LevelsOf(value).province, Some(v)).Some?
  {
    var p := LevelsOf(value).province;
    if !Chosen(p) then []
    else
      var districts := Get(cities, p.value).value.districts.GetOr([]);
      var r := EntryOptions(districts);
      assert forall v :: IsOption(r, v) ==> HasKey(districts, v);
      r
  }

  /**
   * The ward list: none until a district is chosen, then
   * `_.get(cities, [province, 'districts', district, 'wards'], {})`.
   */
  function WardOptions(cities: Obj<City>, value: Option<seq<string>>): (r: seq<(string, string)>)
    ensures !Chosen(LevelsOf(value).district) ==> r == []
    ensures var l := LevelsOf(value); var d := District(cities, l.province, l.district);
      Chosen(l.district) && d.Some? ==> r == EntryOptions(d.value.wards.GetOr([]))
    ensures forall v :: IsOption(r, v) ==>
      Ward(cities, LevelsOf(value).province, LevelsOf(value).district, Some(v)).Some?
  {
    var l := LevelsOf(value);
    if !Chosen(l.district) then []
    else
      match District(cities, l.province, l.district)
      case None => []
      case Some(d) =>
        var wards := d.wards.GetOr([]);
        var r := EntryOptions(wards);
        assert forall v :: IsOption(r, v) ==> HasKey(wards, v);
        r
  }

  /**
   * Every district of the chosen province is offered; with the converse in
   * `DistrictOptions`, a value is offered iff it is one of those districts.
   */
  lemma EveryDistrictOffered(cities: Obj<City>, value: Option<seq<string>>, d: string)
    requires var p := LevelsOf(value).province; Chosen(p) && HasKey(cities, p.value)
    requires District(cities, LevelsOf(value).province, Some(d)).Some?
    ensures IsOption(DistrictOptions(cities, value), d)
  {
    var p := LevelsOf(value).province.value;
    var districts := Get(cities, p).value.districts.value;
    GetFound(districts, d);
    var i :| 0 <= i < |districts| && districts[i] == (d, Get(districts, d).value);
    assert EntryOptions(districts)[i].0 == d;
  }

  /**
   * Every ward of the chosen district is offered; with the converse in
   * `WardOptions`, a value is offered iff it is one of those wards.
   */
  lemma EveryWardOffered(cities: Obj<City>, value: Option<seq<string>>, w: string)
    requires Chosen(LevelsOf(value).district)
    requires Ward(cities, LevelsOf(value).province, LevelsOf(value).district, Some(w)).Some?
    ensures IsOption(WardOptions(cities, value), w)
  {
    var l := LevelsOf(value);
    var wards := District(cities, l.province, l.district).value.wards.value;
    GetFound(wards, w);
    var i :| 0 <= i < |wards| && wards[i] == (w, Get(wards, w).value);
    assert EntryOptions(wards)[i].0 == w;
  }

  /** Choosing a province: `onChange([questionId], [v])`. */
  function ChooseProvince(questionId: string, v: string): Edit {
    SetAnswer(questionId, Some(List([v])))
  }

  /** Choosing a district: `onChange([questionId], [province, v])`. */
  function ChooseDistrict(questionId: string, value: Option<seq<string>>, v: string): Edit
    requires LevelsOf(value).province.Some?
  {
    SetAnswer(questionId, Some(List([LevelsOf(value).province.value, v])))
  }

  /** Choosing a ward: `onChange([questionId], [province, district, v])`. */
  function ChooseWard(questionId: string, value: Option<seq<string>>, v: string): Edit
    requires LevelsOf(value).province.Some? && LevelsOf(value).district.Some?
  {
    var l := LevelsOf(value);
    SetAnswer(questionId, Some(List([l.province.value, l.district.value, v])))
  }

  /** The list a unit edit writes. */
  function Written(e: Edit): Option<seq<string>>
    requires e.SetAnswer? && e.answer.Some? && e.answer.value.List?
  {
    Some(e.answer.value.items)
  }

  /** Choosing a province keeps that province and clears district and ward. */
  lemma ProvinceClearsBelow(questionId: string, v: string)
    ensures LevelsOf(Written(ChooseProvince(questionId, v))) == Levels(Some(v), None, None)
  {
  }

  /** Choosing a district keeps the province, sets the district and clears the ward. */
  lemma DistrictClearsWard(questionId: string, value: Option<seq<string>>, v: string)
    requires LevelsOf(value).province.Some?
    ensures LevelsOf(Written(ChooseDistrict(questionId, value, v)))
         == Levels(LevelsOf(value).province, Some(v), None)
  {
  }

  /** Choosing a ward keeps province and district and sets the ward. */
  lemma WardSetsAll(questionId: string, value: Option<seq<string>>, v: string)
    requires LevelsOf(value).province.Some? && LevelsOf(value).district.Some?
    ensures LevelsOf(Written(ChooseWard(questionId, value, v)))
         == Levels(LevelsOf(value).province, LevelsOf(value).district, Some(v))
  {
  }

  /** Every chosen level lies under the level above it in the table. */
  predicate Consistent(cities: Obj<City>, value: Option<seq<string>>) {
    var l := LevelsOf(value);
    && (l.district.Some? ==> District(cities, l.province, l.district).Some?)
    && (l.ward.Some? ==> Ward(cities, l.province, l.district, l.ward).Some?)
  }

  /**
   * Picking from the offered lists never produces a path whose district is
   * not in the chosen province or whose ward is not in the chosen district.
   */
  lemma CascadeKeepsConsistent(cities: Obj<City>, questionId: string, value: Option<seq<string>>, v: string)
    requires var p := LevelsOf(value).province; Chosen(p) ==> HasKey(cities, p.value)
    ensures IsOption(ProvinceOptions(cities), v) ==> Consistent(cities, Written(ChooseProvince(questionId, v)))
    ensures IsOption(DistrictOptions(cities, value), v) ==>
      LevelsOf(value).province.Some? && Consistent(cities, Written(ChooseDistrict(questionId, value, v)))
    ensures IsOption(WardOptions(cities, value), v) ==>
      LevelsOf(value).province.Some? && LevelsOf(value).district.Some? &&
      Consistent(cities, Written(ChooseWard(questionId, value, v)))
  {
    if IsOption(DistrictOptions(cities, value), v) {
      var after := Written(ChooseDistrict(questionId, value, v));
      assert LevelsOf(after) == Levels(LevelsOf(value).province, Some(v), None);
    }
    if IsOption(WardOptions(cities, value), v) {
      var l := LevelsOf(value);
      assert District(cities, l.province, l.district).Some?;
      var after := Written(ChooseWard(questionId, value, v));
      assert LevelsOf(after) == Levels(l.province, l.district, Some(v));
    }
  }
}
