/** The start screen's topic selection: the search filter over the knowledge
    base, toggling one topic, selecting or deselecting every visible topic,
    the start guard, and the topic made from an uploaded file. */
module TopicSelection {
  import opened QuizTypes
  import opened Text
  import opened Seqs

  function MatchesSearch(searchTerm: string): KnowledgeTopic -> bool {
    (t: KnowledgeTopic) => Contains(Lower(t.topic), Lower(searchTerm))
  }

  /** The visible topics: those whose lower-cased name contains the
      lower-cased search term, in knowledge-base order. */
  function FilteredKnowledgeBase(kb: seq<KnowledgeTopic>, searchTerm: string): (r: seq<KnowledgeTopic>)
    ensures forall t :: t in r <==> t in kb && Contains(Lower(t.topic), Lower(searchTerm))
  {
    Filter(kb, MatchesSearch(searchTerm))
  }

  /** The filter keeps knowledge-base order. */
  lemma FilteredOrder(a: seq<KnowledgeTopic>, b: seq<KnowledgeTopic>, searchTerm: string)
    ensures FilteredKnowledgeBase(a + b, searchTerm) ==
            FilteredKnowledgeBase(a, searchTerm) + FilteredKnowledgeBase(b, searchTerm)
  {
    FilterConcat(a, b, MatchesSearch(searchTerm));
  }

  /** An empty search shows the whole knowledge base. */
  lemma EmptySearchShowsAll(kb: seq<KnowledgeTopic>)
    ensures FilteredKnowledgeBase(kb, "") == kb
  {
    forall t | t in kb ensures MatchesSearch("")(t) {
      ContainsEmpty(Lower(t.topic));
    }
    FilterKeepsAll(kb, MatchesSearch(""));
  }

  /** The case of the search term does not matter. */
  lemma SearchIgnoresCase(kb: seq<KnowledgeTopic>, searchTerm: string)
    ensures FilteredKnowledgeBase(kb, searchTerm) == FilteredKnowledgeBase(kb, Lower(searchTerm))
  {
    LowerIdempotent(searchTerm);
    FilterPointwise(kb, MatchesSearch(searchTerm), MatchesSearch(Lower(searchTerm)));
  }

  function Names(topics: seq<KnowledgeTopic>): (r: seq<string>)
    ensures |r| == |topics|
    ensures forall i :: 0 <= i < |topics| ==> r[i] == topics[i].topic
  {
    seq(|topics|, i requires 0 <= i < |topics| => topics[i].topic)
  }

  /** The header check box: ticked when something is visible and every
      visible topic is selected. */
  predicate AreAllFilteredSelected(filtered: seq<KnowledgeTopic>, selected: seq<string>): (r: bool)
    ensures |filtered| == 0 ==> !r
    ensures r ==> forall t :: t in filtered ==> t.topic in selected
    ensures !r && |filtered| > 0 ==> exists t :: t in filtered && t.topic !in selected
  {
    |filtered| > 0 && forall i :: 0 <= i < |filtered| ==> filtered[i].topic in selected
  }

  function NotEq(topic: string): string -> bool {
    (t: string) => t != topic
  }

  function NotIn(names: seq<string>): string -> bool {
    (t: string) => t !in names
  }

  /** The selection after clicking `topic`: a selected topic is removed, an
      unselected one appended. */
  function Toggled(selected: seq<string>, topic: string): (r: seq<string>)
    ensures topic in selected ==> topic !in r && forall x :: x in r <==> x in selected && x != topic
    ensures topic !in selected ==> |r| == |selected| + 1 && r[..|selected|] == selected && r[|selected|] == topic
  {
    if topic in selected then Filter(selected, NotEq(topic)) else selected + [topic]
  }

  /** Removing a topic leaves the others where they were. */
  lemma ToggleRemovesInPlace(before: seq<string>, after: seq<string>, topic: string)
    requires topic !in before && topic !in after
    ensures Toggled(before + [topic] + after, topic) == before + after
  {
    var p := NotEq(topic);
    var s := before + [topic] + after;
    assert s[|before|] == topic;
    assert Toggled(s, topic) == Filter(s, p);
    FilterConcat(before + [topic], after, p);
    FilterConcat(before, [topic], p);
    FilterKeepsAll(before, p);
    FilterKeepsAll(after, p);
    assert Filter([topic], p) == [];
    assert Filter(before + [topic], p) == before;
  }

  /** Clicking an unselected topic twice restores the selection. */
  lemma ToggleTwice(selected: seq<string>, topic: string)
    requires topic !in selected
    ensures Toggled(Toggled(selected, topic), topic) == selected
  {
    ToggleRemovesInPlace(selected, [], topic);
    assert selected + [topic] + [] == selected + [topic];
    assert selected + [] == selected;
  }

  /** Toggling keeps the selection free of duplicates. */
  lemma ToggleNoDuplicates(selected: seq<string>, topic: string)
    requires NoDuplicates(selected)
    ensures NoDuplicates(Toggled(selected, topic))
  {
    if topic in selected {
      FilterNoDuplicates(selected, NotEq(topic));
    }
  }

  /** The selection after the header check box is clicked: when every
      visible topic is selected they are all removed, otherwise all are
      added after the current selection, each once. */
  function AfterSelectAll(kb: seq<KnowledgeTopic>, searchTerm: string, selected: seq<string>): (r: seq<string>)
    ensures var shown := Names(FilteredKnowledgeBase(kb, searchTerm));
      && (AreAllFilteredSelected(FilteredKnowledgeBase(kb, searchTerm), selected) ==>
            forall x :: x in r <==> x in selected && x !in shown)
      && (!AreAllFilteredSelected(FilteredKnowledgeBase(kb, searchTerm), selected) ==>
            forall x :: x in r <==> x in selected || x in shown)
  {
    SelectAllOver(FilteredKnowledgeBase(kb, searchTerm), selected)
  }

  /** The header check box over a given visible list. */
  function SelectAllOver(filtered: seq<KnowledgeTopic>, selected: seq<string>): (r: seq<string>)
    ensures AreAllFilteredSelected(filtered, selected) ==>
      forall x :: x in r <==> x in selected && x !in Names(filtered)
    ensures !AreAllFilteredSelected(filtered, selected) ==>
      forall x :: x in r <==> x in selected || x in Names(filtered)
  {
    var filteredTopics := Names(filtered);
    if AreAllFilteredSelected(filtered, selected) then Filter(selected, NotIn(filteredTopics))
    else Dedup(selected + filteredTopics)
  }

  /** On a duplicate-free selection: selecting all keeps the earlier
      selections first and in order, leaves every visible topic selected and
      creates no duplicates; deselecting all leaves no visible topic selected
      and keeps the others in order. */
  lemma SelectAllEffect(kb: seq<KnowledgeTopic>, searchTerm: string, selected: seq<string>)
    requires NoDuplicates(selected)
    ensures var filtered := FilteredKnowledgeBase(kb, searchTerm);
      var r := AfterSelectAll(kb, searchTerm, selected);
      && NoDuplicates(r)
      && (!AreAllFilteredSelected(filtered, selected) ==>
            (&& |selected| <= |r| && r[..|selected|] == selected
             && (|filtered| > 0 ==> AreAllFilteredSelected(filtered, r))))
      && (AreAllFilteredSelected(filtered, selected) ==>
            (&& (forall i :: 0 <= i < |filtered| ==> filtered[i].topic !in r)
             && r == Filter(selected, NotIn(Names(filtered)))))
  {
    SelectAllOverEffect(FilteredKnowledgeBase(kb, searchTerm), selected);
  }

  lemma SelectAllOverEffect(filtered: seq<KnowledgeTopic>, selected: seq<string>)
    requires NoDuplicates(selected)
    ensures var r := SelectAllOver(filtered, selected);
      && NoDuplicates(r)
      && (!AreAllFilteredSelected(filtered, selected) ==>
            (&& |selected| <= |r| && r[..|selected|] == selected
             && (|filtered| > 0 ==> AreAllFilteredSelected(filtered, r))))
      && (AreAllFilteredSelected(filtered, selected) ==>
            (&& (forall i :: 0 <= i < |filtered| ==> filtered[i].topic !in r)
             && r == Filter(selected, NotIn(Names(filtered)))))
  {
    var names := Names(filtered);
    if AreAllFilteredSelected(filtered, selected) {
      FilterNoDuplicates(selected, NotIn(names));
    } else {
      DedupAfterDistinct(selected, names);
    }
  }

  /** When no visible topic is selected, selecting all and then deselecting
      all gives back the original selection. */
  lemma SelectAllRoundTrip(kb: seq<KnowledgeTopic>, searchTerm: string, selected: seq<string>)
    requires NoDuplicates(selected)
    requires |FilteredKnowledgeBase(kb, searchTerm)| > 0
    requires forall t :: t in FilteredKnowledgeBase(kb, searchTerm) ==> t.topic !in selected
    ensures AfterSelectAll(kb, searchTerm, AfterSelectAll(kb, searchTerm, selected)) == selected
  {
    SelectAllOverRoundTrip(FilteredKnowledgeBase(kb, searchTerm), selected);
  }

  lemma SelectAllOverRoundTrip(filtered: seq<KnowledgeTopic>, selected: seq<string>)
    requires NoDuplicates(selected)
    requires |filtered| > 0
    requires forall t :: t in filtered ==> t.topic !in selected
    ensures SelectAllOver(filtered, SelectAllOver(filtered, selected)) == selected
  {
    var names := Names(filtered);
    assert filtered[0] in filtered;
    assert !AreAllFilteredSelected(filtered, selected);
    var once := SelectAllOver(filtered, selected);
    DedupAfterDistinct(selected, names);
    assert once == AppendNew(selected, names);
    SelectAllOverEffect(filtered, selected);
    assert AreAllFilteredSelected(filtered, once);
    assert SelectAllOver(filtered, once) == Filter(once, NotIn(names));
    assert forall x :: x in selected ==> NotIn(names)(x);
    DropAppended(selected, names);
  }

  /** Appending new names and then filtering those names out again gives
      back a list that held none of them. */
  lemma DropAppended(selected: seq<string>, names: seq<string>)
    requires forall x :: x in selected ==> NotIn(names)(x)
    ensures Filter(AppendNew(selected, names), NotIn(names)) == selected
  {
    var once := AppendNew(selected, names);
    var extra := once[|selected|..];
    assert once == selected + extra;
    AppendNewAddsFrom(selected, names);
    FilterConcat(selected, extra, NotIn(names));
    FilterKeepsAll(selected, NotIn(names));
    FilterDropsAll(extra, NotIn(names));
    assert selected + [] == selected;
  }

  /** The start handler's guard: not loading, a topic selected, a non-zero
      question count, and a question type and difficulty chosen. */
  predicate CanStart(isLoading: bool, selected: seq<string>, numQuestions: int,
                     questionType: Option<QuestionType>, difficulty: Option<Difficulty>) {
    !isLoading && |selected| > 0 && numQuestions != 0 && questionType.Some? && difficulty.Some?
  }

  /** The start button's disabled state, which does not look at the count. */
  predicate StartDisabled(isLoading: bool, selected: seq<string>,
                          questionType: Option<QuestionType>, difficulty: Option<Difficulty>): (r: bool)
    ensures !r ==> !isLoading && |selected| > 0 && questionType.Some? && difficulty.Some?
    ensures r ==> isLoading || selected == [] || questionType.None? || difficulty.None?
  {
    |selected| == 0 || questionType.None? || difficulty.None? || isLoading
  }

  /** With a non-zero count the button is enabled exactly when the guard lets
      the start through. */
  lemma StartButtonMatchesGuard(isLoading: bool, selected: seq<string>, numQuestions: int,
                                questionType: Option<QuestionType>, difficulty: Option<Difficulty>)
    requires numQuestions != 0
    ensures !StartDisabled(isLoading, selected, questionType, difficulty) <==>
            CanStart(isLoading, selected, numQuestions, questionType, difficulty)
  {
  }

  /** The `type` of an uploaded file. */
  datatype FileKind = PlainText | Pdf | OtherType

  datatype UploadedFile = UploadedFile(name: string, kind: FileKind)

  const WrongTypeMessage := "Please upload a .txt or .pdf file."
  const EmptyFileMessage := "The file appears to be empty or could not be read."
  const ReadFailedMessage := "An error occurred while processing the file. Please try again."

  /** What an upload leads to: an alert, or a custom topic to add. */
  datatype UploadOutcome = WrongType | ReadFailed | EmptyContent | Added(topic: KnowledgeTopic)

  function AlertOf(o: UploadOutcome): (m: Option<string>)
    ensures m.None? <==> o.Added?
  {
    match o
    case WrongType => Some(WrongTypeMessage)
    case ReadFailed => Some(ReadFailedMessage)
    case EmptyContent => Some(EmptyFileMessage)
    case Added(_) => None
  }

  /** The topic name for an accepted file type: the file name without a
      trailing ".txt" (plain text) or ".pdf" (PDF), ignoring case. */
  function UploadName(file: UploadedFile): (r: string)
    ensures StartsWith(file.name, r)
    ensures file.kind == PlainText && EndsWithIgnoringCase(file.name, ".txt") ==> |r| == |file.name| - 4
    ensures file.kind == Pdf && EndsWithIgnoringCase(file.name, ".pdf") ==> |r| == |file.name| - 4
    ensures file.kind == PlainText && !EndsWithIgnoringCase(file.name, ".txt") ==> r == file.name
    ensures file.kind == Pdf && !EndsWithIgnoringCase(file.name, ".pdf") ==> r == file.name
  {
    match file.kind
    case PlainText => StripSuffixIgnoringCase(file.name, ".txt")
    case Pdf => StripSuffixIgnoringCase(file.name, ".pdf")
    case OtherType => file.name
  }

  /** An upload. `extracted` is the file's text as read (the page texts
      joined for a PDF), or `None` when reading threw. Plain text is kept as
      read, PDF text trimmed; content that is only white space is refused. */
  function Upload(file: UploadedFile, extracted: Option<string>): (o: UploadOutcome)
    ensures file.kind == OtherType ==> o == WrongType
    ensures file.kind != OtherType && extracted.None? ==> o == ReadFailed
    ensures o == EmptyContent <==> file.kind != OtherType && extracted.Some? && IsBlank(extracted.value)
    ensures o.Added? ==>
      && o.topic.topic == UploadName(file) && o.topic.isCustom
      && !IsBlank(o.topic.content)
      && (file.kind == PlainText ==> o.topic.content == extracted.value)
      && (file.kind == Pdf ==> o.topic.content == Trim(extracted.value))
  {
    if file.kind == OtherType then WrongType
    else match extracted
      case None => ReadFailed
      case Some(text) =>
        var content := if file.kind == Pdf then Trim(text) else text;
        TrimmedBlank(text);
        TrimEmptyIffBlank(content);
        if Trim(content) == "" then EmptyContent
        else Added(KnowledgeTopic(UploadName(file), content, true))
  }

  /** Trimming first does not change whether the text is blank. */
  lemma TrimmedBlank(s: string)
    ensures IsBlank(Trim(s)) <==> IsBlank(s)
  {
    TrimEmptyIffBlank(s);
    var t := Trim(s);
    if t != "" {
      assert !IsSpace(t[0]);
    }
  }

  /** The selection after an upload's topic is auto-selected: the earlier
      selection, then the name once, unless it was already there. */
  lemma AutoSelectOnce(selected: seq<string>, name: string)
    requires NoDuplicates(selected)
    ensures var r := Dedup(selected + [name]);
      && NoDuplicates(r) && |selected| <= |r| && r[..|selected|] == selected
      && exists k :: 0 <= k < |r| && r[k] == name && forall j :: 0 <= j < |r| && r[j] == name ==> j == k
  {
    DedupAfterDistinct(selected, [name]);
    var r := Dedup(selected + [name]);
    assert name in r;
    var k :| 0 <= k < |r| && r[k] == name;
  }

  /** The start request handed to the session controller. */
  datatype StartRequest = StartRequest(questionType: QuestionType, difficulty: Difficulty,
                                       numQuestions: int, selectedTopics: seq<string>)

  /** The start screen's own selection state; the knowledge base and the
      loading flag come from the session, the other form fields are passed
      to the handlers that read them. */
  class StartScreen {
    var selectedTopics: seq<string>

    ghost predicate Valid()
      reads this
    {
      NoDuplicates(selectedTopics)
    }

    constructor ()
      ensures Valid() && selectedTopics == []
    {
      selectedTopics := [];
    }

    method TopicToggle(topic: string)
      requires Valid()
      modifies this
      ensures Valid()
      ensures selectedTopics == Toggled(old(selectedTopics), topic)
      ensures topic in selectedTopics <==> topic !in old(selectedTopics)
    {
      ToggleNoDuplicates(selectedTopics, topic);
      selectedTopics := Toggled(selectedTopics, topic);
    }

    method SelectAllToggle(kb: seq<KnowledgeTopic>, searchTerm: string)
      requires Valid()
      modifies this
      ensures Valid()
      ensures selectedTopics == AfterSelectAll(kb, searchTerm, old(selectedTopics))
    {
      SelectAllEffect(kb, searchTerm, selectedTopics);
      selectedTopics := AfterSelectAll(kb, searchTerm, selectedTopics);
    }

    /** The request passed on, exactly when the guard allows it. */
    method Start(isLoading: bool, numQuestions: int,
                 questionType: Option<QuestionType>, difficulty: Option<Difficulty>)
      returns (request: Option<StartRequest>)
      ensures request.Some? <==> CanStart(isLoading, selectedTopics, numQuestions, questionType, difficulty)
      ensures request.Some? ==>
        request.value == StartRequest(questionType.value, difficulty.value, numQuestions, selectedTopics)
    {
      if isLoading || |selectedTopics| == 0 || numQuestions == 0 || questionType.None? || difficulty.None? {
        request := None;
      } else {
        request := Some(StartRequest(questionType.value, difficulty.value, numQuestions, selectedTopics));
      }
    }

    /** Handle an upload; an accepted topic is returned for the session to
      add and is selected here whether or not the session accepts it. */
    method FileChange(file: UploadedFile, extracted: Option<string>) returns (outcome: UploadOutcome)
      requires Valid()
      modifies this
      ensures Valid()
      ensures outcome == Upload(file, extracted)
      ensures outcome.Added? ==> selectedTopics == Dedup(old(selectedTopics) + [outcome.topic.topic])
      ensures !outcome.Added? ==> selectedTopics == old(selectedTopics)
    {
      outcome := Upload(file, extracted);
      if outcome.Added? {
        AutoSelectOnce(selectedTopics, outcome.topic.topic);
        selectedTopics := Dedup(selectedTopics + [outcome.topic.topic]);
      }
    }

    /** After the user confirms, the deleted name leaves the selection;
      the result says whether the session is to delete it. */
    method Delete(topicName: string, confirmed: bool) returns (deleted: bool)
      requires Valid()
      modifies this
      ensures Valid()
      ensures deleted == confirmed
      ensures confirmed ==> && topicName !in selectedTopics
                            && selectedTopics == Filter(old(selectedTopics), NotEq(topicName))
      ensures !confirmed ==> selectedTopics == old(selectedTopics)
    {
      deleted := confirmed;
      if confirmed {
        FilterNoDuplicates(selectedTopics, NotEq(topicName));
        selectedTopics := Filter(selectedTopics, NotEq(topicName));
      }
    }
  }
}
