/**
 * The report page's selection state
 * (app/analytics/generate-report/components/GenerateReportPageContent.tsx): choosing one
 * report template and ticking report sections on and off. Each handler replaces the list
 * with a mapped copy.
 */
module GenerateReport {

  /** A report template; `title` and `description` stand for the fields the handler copies unchanged. */
  datatype ReportTemplate = ReportTemplate(id: int, title: string, description: string, isSelected: bool)

  /** A report section of the custom export form. */
  datatype ReportSection = ReportSection(id: int, name: string, checked: bool)

  predicate HasTemplate(ts: seq<ReportTemplate>, id: int) {
    exists i :: 0 <= i < |ts| && ts[i].id == id
  }

  predicate UniqueTemplateIds(ts: seq<ReportTemplate>) {
    forall i, j :: 0 <= i < j < |ts| ==> ts[i].id != ts[j].id
  }

  function CountSelected(ts: seq<ReportTemplate>): (n: nat)
    ensures n <= |ts|
  {
    if ts == [] then 0 else (if ts[0].isSelected then 1 else 0) + CountSelected(ts[1..])
  }

  /** `handleTemplateSelect`: the template with the chosen id becomes the selected one and every other
      template is deselected; order and all other fields stay. */
  function SelectTemplate(ts: seq<ReportTemplate>, templateId: int): (r: seq<ReportTemplate>)
    ensures |r| == |ts|
    ensures forall i :: 0 <= i < |r| ==>
      && r[i].id == ts[i].id && r[i].title == ts[i].title && r[i].description == ts[i].description
      && (r[i].isSelected <==> ts[i].id == templateId)
  {
    seq(|ts|, i requires 0 <= i < |ts| => ts[i].(isSelected := ts[i].id == templateId))
  }

  /** With distinct ids, a list whose selection flags mark exactly the templates with `id` has one
      selected template if `id` is present and none otherwise. */
  lemma {:induction false} CountMarked(r: seq<ReportTemplate>, ts: seq<ReportTemplate>, id: int)
    requires |r| == |ts| && UniqueTemplateIds(ts)
    requires forall i :: 0 <= i < |r| ==> (r[i].isSelected <==> ts[i].id == id)
    ensures CountSelected(r) == if HasTemplate(ts, id) then 1 else 0
  {
    if r != [] {
      CountMarked(r[1..], ts[1..], id);
      if ts[0].id == id {
        assert HasTemplate(ts, id);
        assert !HasTemplate(ts[1..], id) by {
          forall k | 0 <= k < |ts[1..]|
            ensures ts[1..][k].id != id
          {
            assert ts[1..][k] == ts[k + 1];
          }
        }
      } else {
        if HasTemplate(ts, id) {
          var k :| 0 <= k < |ts| && ts[k].id == id;
          assert ts[1..][k - 1] == ts[k];
        }
        if HasTemplate(ts[1..], id) {
          var k :| 0 <= k < |ts[1..]| && ts[1..][k].id == id;
          assert ts[k + 1] == ts[1..][k];
        }
      }
    }
  }

  /** With distinct ids and the chosen id present, exactly one template is selected afterwards;
      choosing an absent id leaves none selected. */
  lemma SelectLeavesOne(ts: seq<ReportTemplate>, templateId: int)
    requires UniqueTemplateIds(ts)
    ensures CountSelected(SelectTemplate(ts, templateId)) == if HasTemplate(ts, templateId) then 1 else 0
  {
    CountMarked(SelectTemplate(ts, templateId), ts, templateId);
  }

  /** The last choice wins: a second selection undoes the first, so selecting twice is selecting once. */
  lemma SelectLastWins(ts: seq<ReportTemplate>, first: int, second: int)
    ensures SelectTemplate(SelectTemplate(ts, first), second) == SelectTemplate(ts, second)
    ensures SelectTemplate(SelectTemplate(ts, first), first) == SelectTemplate(ts, first)
  {
  }

  predicate HasSection(ss: seq<ReportSection>, id: int) {
    exists i :: 0 <= i < |ss| && ss[i].id == id
  }

  /** `handleSectionToggle`: every section with the chosen id has its tick flipped; every other section
      is left exactly as it was. */
  function ToggleSection(ss: seq<ReportSection>, sectionId: int): (r: seq<ReportSection>)
    ensures |r| == |ss|
    ensures forall i :: 0 <= i < |r| ==>
      && r[i].id == ss[i].id && r[i].name == ss[i].name
      && (ss[i].id == sectionId ==> r[i].checked != ss[i].checked)
      && (ss[i].id != sectionId ==> r[i] == ss[i])
  {
    seq(|ss|, i requires 0 <= i < |ss| =>
      if ss[i].id == sectionId then ss[i].(checked := !ss[i].checked) else ss[i])
  }

  /** Toggling the same section twice restores the list. */
  lemma ToggleTwiceRestores(ss: seq<ReportSection>, sectionId: int)
    ensures ToggleSection(ToggleSection(ss, sectionId), sectionId) == ss
  {
    var r := ToggleSection(ToggleSection(ss, sectionId), sectionId);
    forall i | 0 <= i < |ss|
      ensures r[i] == ss[i]
    {
    }
  }

  /** Toggling an id no section carries changes nothing. */
  lemma ToggleAbsentIsNoOp(ss: seq<ReportSection>, sectionId: int)
    requires !HasSection(ss, sectionId)
    ensures ToggleSection(ss, sectionId) == ss
  {
    var r := ToggleSection(ss, sectionId);
    forall i | 0 <= i < |ss|
      ensures r[i] == ss[i]
    {
    }
  }

  /** Toggles of different sections do not interfere: their order does not matter. */
  lemma TogglesCommute(ss: seq<ReportSection>, a: int, b: int)
    ensures ToggleSection(ToggleSection(ss, a), b) == ToggleSection(ToggleSection(ss, b), a)
  {
    var r1 := ToggleSection(ToggleSection(ss, a), b);
    var r2 := ToggleSection(ToggleSection(ss, b), a);
    forall i | 0 <= i < |ss|
      ensures r1[i] == r2[i]
    {
    }
  }

  /** The page's `templates` and `sections` state, which each handler replaces. */
  class ReportPage {
    var templates: seq<ReportTemplate>
    var sections: seq<ReportSection>

    /** The page starts from the reference templates and sections. */
    constructor(initialTemplates: seq<ReportTemplate>, initialSections: seq<ReportSection>)
      ensures templates == initialTemplates && sections == initialSections
    {
      templates := initialTemplates;
      sections := initialSections;
    }

    method HandleTemplateSelect(templateId: int)
      modifies this
      ensures templates == SelectTemplate(old(templates), templateId)
      ensures sections == old(sections)
      ensures UniqueTemplateIds(old(templates)) && HasTemplate(old(templates), templateId) ==> CountSelected(templates) == 1
    {
      if UniqueTemplateIds(templates) {
        SelectLeavesOne(templates, templateId);
      }
      templates := SelectTemplate(templates, templateId);
    }

    method HandleSectionToggle(sectionId: int)
      modifies this
      ensures sections == ToggleSection(old(sections), sectionId)
      ensures templates == old(templates)
    {
      sections := ToggleSection(sections, sectionId);
    }
  }
}
