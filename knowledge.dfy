/** The knowledge base: built-in topics followed by user-added custom ones,
    with names kept distinct without regard to case when topics are added. */
module Knowledge {
  import opened QuizTypes
  import opened Text
  import opened Seqs

  /** Some entry already has `name`, compared after lower-casing both. */
  predicate NameTaken(kb: seq<KnowledgeTopic>, name: string) {
    exists i :: 0 <= i < |kb| && Lower(kb[i].topic) == Lower(name)
  }

  /** No two entries share a name without regard to case. */
  predicate DistinctNames(kb: seq<KnowledgeTopic>) {
    forall i, j :: 0 <= i < j < |kb| ==> Lower(kb[i].topic) != Lower(kb[j].topic)
  }

  /** The knowledge base after an attempt to add `t`: a name already taken is
      refused and nothing changes; otherwise `t` goes at the end. */
  function AddTopic(kb: seq<KnowledgeTopic>, t: KnowledgeTopic): (r: seq<KnowledgeTopic>)
    ensures NameTaken(kb, t.topic) ==> r == kb
    ensures !NameTaken(kb, t.topic) ==> r == kb + [t]
  {
    if NameTaken(kb, t.topic) then kb else kb + [t]
  }

  /** Adding keeps names distinct, and afterwards the name is always taken,
      so a second attempt with the same topic changes nothing. */
  lemma AddTopicKeepsDistinct(kb: seq<KnowledgeTopic>, t: KnowledgeTopic)
    requires DistinctNames(kb)
    ensures DistinctNames(AddTopic(kb, t))
    ensures NameTaken(AddTopic(kb, t), t.topic)
    ensures AddTopic(AddTopic(kb, t), t) == AddTopic(kb, t)
  {
    var r := AddTopic(kb, t);
    if !NameTaken(kb, t.topic) {
      assert r[|kb|] == t;
    }
  }

  /** A name differing only in case from an existing one is refused. */
  lemma AddTopicRefusesCaseVariant(kb: seq<KnowledgeTopic>, t: KnowledgeTopic, i: nat)
    requires i < |kb| && Lower(kb[i].topic) == Lower(t.topic)
    ensures AddTopic(kb, t) == kb
  {
  }

  function NotNamed(name: string): KnowledgeTopic -> bool {
    (t: KnowledgeTopic) => t.topic != name
  }

  /** The knowledge base without the entries named exactly `topicName`. */
  function DeleteTopic(kb: seq<KnowledgeTopic>, topicName: string): (r: seq<KnowledgeTopic>)
    ensures forall t :: t in r <==> t in kb && t.topic != topicName
  {
    Filter(kb, NotNamed(topicName))
  }

  lemma {:induction false} DistinctNamesCons(x: KnowledgeTopic, s: seq<KnowledgeTopic>)
    requires DistinctNames(s)
    requires forall y :: y in s ==> Lower(y.topic) != Lower(x.topic)
    ensures DistinctNames([x] + s)
  {
    var r := [x] + s;
    forall i, j | 0 <= i < j < |r| ensures Lower(r[i].topic) != Lower(r[j].topic) {
      if i == 0 {
        assert r[j] == s[j - 1] && r[j] in s;
      } else {
        assert r[i] == s[i - 1] && r[j] == s[j - 1];
      }
    }
  }

  /** Deleting keeps names distinct. */
  lemma {:induction false} DeleteKeepsDistinct(kb: seq<KnowledgeTopic>, topicName: string)
    requires DistinctNames(kb)
    ensures DistinctNames(DeleteTopic(kb, topicName))
  {
    if kb != [] {
      var rest := kb[1..];
      assert DistinctNames(rest) by {
        forall i, j | 0 <= i < j < |rest| ensures Lower(rest[i].topic) != Lower(rest[j].topic) {
          assert rest[i] == kb[i + 1] && rest[j] == kb[j + 1];
        }
      }
      DeleteKeepsDistinct(rest, topicName);
      var tail := DeleteTopic(rest, topicName);
      forall y | y in tail ensures Lower(y.topic) != Lower(kb[0].topic) {
        var j :| 0 <= j < |rest| && rest[j] == y;
        assert kb[j + 1] == y;
      }
      if kb[0].topic != topicName {
        DistinctNamesCons(kb[0], tail);
      } else {
        assert DeleteTopic(kb, topicName) == tail;
      }
    }
  }

  /** Deleting a name keeps every other entry in its order and removes
      nothing when no entry has that exact name. */
  lemma DeleteTopicOrder(a: seq<KnowledgeTopic>, b: seq<KnowledgeTopic>, topicName: string)
    ensures DeleteTopic(a + b, topicName) == DeleteTopic(a, topicName) + DeleteTopic(b, topicName)
    ensures (forall t :: t in a ==> t.topic != topicName) ==> DeleteTopic(a, topicName) == a
  {
    FilterConcat(a, b, NotNamed(topicName));
    if forall t :: t in a ==> t.topic != topicName {
      FilterKeepsAll(a, NotNamed(topicName));
    }
  }

  function IsCustom(): KnowledgeTopic -> bool {
    (t: KnowledgeTopic) => t.isCustom
  }

  /** The entries written to storage as custom topics. */
  function CustomTopics(kb: seq<KnowledgeTopic>): (r: seq<KnowledgeTopic>)
    ensures forall t :: t in r <==> t in kb && t.isCustom
  {
    Filter(kb, IsCustom())
  }

  /** Start-up merges the stored custom topics after the built-in ones; the
      custom list written back from that knowledge base is the stored list. */
  lemma CustomTopicsRoundTrip(builtins: seq<KnowledgeTopic>, custom: seq<KnowledgeTopic>)
    requires forall t :: t in builtins ==> !t.isCustom
    requires forall t :: t in custom ==> t.isCustom
    ensures CustomTopics(builtins + custom) == custom
  {
    FilterConcat(builtins, custom, IsCustom());
    FilterDropsAll(builtins, IsCustom());
    FilterKeepsAll(custom, IsCustom());
  }

  /** Adding a custom topic extends the stored custom list by exactly that topic. */
  lemma CustomTopicsAfterAdd(kb: seq<KnowledgeTopic>, t: KnowledgeTopic)
    requires !NameTaken(kb, t.topic) && t.isCustom
    ensures CustomTopics(AddTopic(kb, t)) == CustomTopics(kb) + [t]
  {
    FilterConcat(kb, [t], IsCustom());
    assert Filter([t], IsCustom()) == [t];
  }

  function InNames(names: seq<string>): KnowledgeTopic -> bool {
    (t: KnowledgeTopic) => t.topic in names
  }

  /** The entries whose exact name is among `names`, in knowledge-base order. */
  function TopicsNamed(kb: seq<KnowledgeTopic>, names: seq<string>): (r: seq<KnowledgeTopic>)
    ensures forall t :: t in r <==> t in kb && t.topic in names
    ensures r == [] <==> forall i :: 0 <= i < |kb| ==> kb[i].topic !in names
  {
    var r := Filter(kb, InNames(names));
    assert forall i :: 0 <= i < |kb| && kb[i].topic in names ==> kb[i] in r;
    assert r != [] ==> r[0] in kb && r[0].topic in names;
    r
  }

  /** Resolution keeps knowledge-base order. */
  lemma TopicsNamedOrder(a: seq<KnowledgeTopic>, b: seq<KnowledgeTopic>, names: seq<string>)
    ensures TopicsNamed(a + b, names) == TopicsNamed(a, names) + TopicsNamed(b, names)
  {
    FilterConcat(a, b, InNames(names));
  }
}
