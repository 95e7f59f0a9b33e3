/**
  The study list of the sidebar (src/components/Sidebar.tsx): the
  case-insensitive search over patient name, patient id and description,
  the "No se encontraron estudios" placeholder and the highlighted row.
 */
module Sidebar {
  import opened Wrappers
  import opened JsString
  import opened StudyTypes

  /**
    The filter's predicate: the lowered term occurs in one of the three
    lowered searched fields. The empty term matches every study, and a term
    longer than all three fields matches none.
   */
  predicate MatchesSearch(study: Study, searchTerm: string)
    ensures searchTerm == [] ==> MatchesSearch(study, searchTerm)
    ensures MatchesSearch(study, searchTerm) ==>
              |searchTerm| <= |study.patientName| || |searchTerm| <= |study.patientId| || |searchTerm| <= |study.description|
  {
    var term := LowerCase(searchTerm);
    Includes(LowerCase(study.patientName), term) ||
    Includes(LowerCase(study.patientId), term) ||
    Includes(LowerCase(study.description), term)
  }

  /** `studies.filter(MatchesSearch)`, keeping the original order. */
  function FilteredStudies(studies: seq<Study>, searchTerm: string): (r: seq<Study>)
    ensures |r| <= |studies|
  {
    if studies == [] then []
    else
      var rest := FilteredStudies(studies[1..], searchTerm);
      if MatchesSearch(studies[0], searchTerm) then [studies[0]] + rest else rest
  }

  /** `sub` can be obtained from `s` by deleting elements, without reordering. */
  ghost predicate IsSubsequence<T>(sub: seq<T>, s: seq<T>)
    decreases |s|
  {
    if sub == [] then true
    else if s == [] then false
    else (sub[0] == s[0] && IsSubsequence(sub[1..], s[1..])) || IsSubsequence(sub, s[1..])
  }

  /** The filtered list is an order-preserving subsequence of the study list. */
  lemma {:induction false} FilteredIsSubsequence(studies: seq<Study>, searchTerm: string)
    ensures IsSubsequence(FilteredStudies(studies, searchTerm), studies)
    decreases |studies|
  {
    if studies != [] {
      FilteredIsSubsequence(studies[1..], searchTerm);
      var rest := FilteredStudies(studies[1..], searchTerm);
      if MatchesSearch(studies[0], searchTerm) {
        assert ([studies[0]] + rest)[1..] == rest;
      }
    }
  }

  /**
    A study is listed exactly as often as it occurs in `studies` when it
    matches the search, and not at all otherwise; in particular it is
    listed iff it is one of the studies and matches.
   */
  lemma {:induction false} FilteredMultiplicity(studies: seq<Study>, searchTerm: string, s: Study)
    ensures multiset(FilteredStudies(studies, searchTerm))[s] ==
            if MatchesSearch(s, searchTerm) then multiset(studies)[s] else 0
    ensures s in FilteredStudies(studies, searchTerm) <==> s in studies && MatchesSearch(s, searchTerm)
    decreases |studies|
  {
    if studies != [] {
      FilteredMultiplicity(studies[1..], searchTerm, s);
      assert studies == [studies[0]] + studies[1..];
    }
  }

  /**
    The list shows the "No se encontraron estudios" placeholder instead of
    rows (src/components/Sidebar.tsx:54-55): always for an empty study
    list, and with the empty term only then.
   */
  predicate ShowsNoResults(studies: seq<Study>, searchTerm: string)
    ensures studies == [] ==> ShowsNoResults(studies, searchTerm)
    ensures searchTerm == "" ==> (ShowsNoResults(studies, searchTerm) <==> studies == [])
  {
    EmptySearchKeepsAll(studies);
    |FilteredStudies(studies, searchTerm)| == 0
  }

  /** The placeholder is shown exactly when no study matches the search. */
  lemma NoResultsIff(studies: seq<Study>, searchTerm: string)
    ensures ShowsNoResults(studies, searchTerm) <==>
            forall i :: 0 <= i < |studies| ==> !MatchesSearch(studies[i], searchTerm)
  {
    var r := FilteredStudies(studies, searchTerm);
    if r != [] {
      FilteredMultiplicity(studies, searchTerm, r[0]);
    }
    forall i | 0 <= i < |studies| && MatchesSearch(studies[i], searchTerm) ensures r != [] {
      FilteredMultiplicity(studies, searchTerm, studies[i]);
    }
  }

  /** An empty search term keeps every study, in order. */
  lemma {:induction false} EmptySearchKeepsAll(studies: seq<Study>)
    ensures FilteredStudies(studies, "") == studies
    decreases |studies|
  {
    if studies != [] {
      EmptySearchKeepsAll(studies[1..]);
      assert LowerCase("") == "";
      IncludesEmpty(LowerCase(studies[0].patientName));
    }
  }

  /** The result depends on the search term only through its lowered form. */
  lemma {:induction false} SearchIsCaseInsensitive(studies: seq<Study>, t1: string, t2: string)
    requires LowerCase(t1) == LowerCase(t2)
    ensures FilteredStudies(studies, t1) == FilteredStudies(studies, t2)
    decreases |studies|
  {
    if studies != [] {
      SearchIsCaseInsensitive(studies[1..], t1, t2);
    }
  }

  /** Terms that are the same letters up to case, such as "JUAN" and "juan", give the same list. */
  lemma SearchIgnoresCase(studies: seq<Study>, t1: string, t2: string)
    requires |t1| == |t2| && forall i :: 0 <= i < |t1| ==> SameUpToCase(t1[i], t2[i])
    ensures FilteredStudies(studies, t1) == FilteredStudies(studies, t2)
  {
    LowerCaseEqIff(t1, t2);
    SearchIsCaseInsensitive(studies, t1, t2);
  }

  /** Searching for a term or for its lowered form gives the same list. */
  lemma SearchByLoweredTerm(studies: seq<Study>, searchTerm: string)
    ensures FilteredStudies(studies, LowerCase(searchTerm)) == FilteredStudies(studies, searchTerm)
  {
    LowerCaseIdempotent(searchTerm);
    SearchIsCaseInsensitive(studies, LowerCase(searchTerm), searchTerm);
  }

  /** Id, modality, study date and images are never searched: changing them keeps the match. */
  lemma UnsearchedFieldsIgnored(study: Study, searchTerm: string,
                                id: string, modality: string, studyDate: string, images: seq<string>)
    ensures MatchesSearch(study.(id := id, modality := modality, studyDate := studyDate, images := images), searchTerm)
            == MatchesSearch(study, searchTerm)
  {
  }

  /** The three searched fields of each study in a list. */
  function SearchedFields(studies: seq<Study>): seq<(string, string, string)> {
    seq(|studies|, i requires 0 <= i < |studies| =>
      (studies[i].patientName, studies[i].patientId, studies[i].description))
  }

  /** Two study lists that differ only in unsearched fields keep the same rows, in the same places. */
  lemma {:induction false} UnsearchedFieldsKeepSelection(a: seq<Study>, b: seq<Study>, searchTerm: string)
    requires SearchedFields(a) == SearchedFields(b)
    ensures SearchedFields(FilteredStudies(a, searchTerm)) == SearchedFields(FilteredStudies(b, searchTerm))
    decreases |a|
  {
    if a != [] {
      assert |b| == |a|;
      assert SearchedFields(a)[0] == SearchedFields(b)[0];
      assert SearchedFields(a[1..]) == SearchedFields(a)[1..];
      assert SearchedFields(b[1..]) == SearchedFields(b)[1..];
      UnsearchedFieldsKeepSelection(a[1..], b[1..], searchTerm);
      var ra := FilteredStudies(a[1..], searchTerm);
      var rb := FilteredStudies(b[1..], searchTerm);
      if MatchesSearch(a[0], searchTerm) {
        assert SearchedFields([a[0]] + ra) == [SearchedFields(a)[0]] + SearchedFields(ra);
        assert SearchedFields([b[0]] + rb) == [SearchedFields(b)[0]] + SearchedFields(rb);
      }
    }
  }

  /**
    `currentStudy?.id === study.id`: the row is highlighted
    (src/components/Sidebar.tsx:63). Nothing is without a current study,
    and the current study's own row is.
   */
  predicate IsHighlighted(row: Study, currentStudy: Option<Study>)
    ensures currentStudy == None ==> !IsHighlighted(row, currentStudy)
    ensures currentStudy == Some(row) ==> IsHighlighted(row, currentStudy)
  {
    currentStudy.Some? && currentStudy.value.id == row.id
  }

  /** With no current study nothing is highlighted; with distinct ids at most one row is. */
  lemma AtMostOneHighlighted(rows: seq<Study>, currentStudy: Option<Study>, i: int, j: int)
    requires forall k, l :: 0 <= k < l < |rows| ==> rows[k].id != rows[l].id
    requires 0 <= i < |rows| && 0 <= j < |rows|
    requires IsHighlighted(rows[i], currentStudy) && IsHighlighted(rows[j], currentStudy)
    ensures i == j && currentStudy.Some?
  {
  }
}
