/**
 * The static topic catalog of src/data.ts: five topics, each an id and its
 * word list (the glyph and hint of each word play no part in the core and are
 * not kept).
 */
module Catalog {
  import opened Wrappers

  datatype Topic = Topic(id: string, words: seq<string>)

  const TOPICS: seq<Topic> := [
    Topic("animals", ["Cat", "Dog", "Bird", "Fish", "Lion", "Elephant", "Monkey", "Rabbit",
                      "Bear", "Horse", "Cow", "Chicken", "Duck", "Frog", "Butterfly"]),
    Topic("colors", ["Red", "Blue", "Green", "Yellow", "Orange", "Purple", "Pink", "White",
                     "Black", "Brown"]),
    Topic("numbers", ["One", "Two", "Three", "Four", "Five", "Six", "Seven", "Eight", "Nine",
                      "Ten"]),
    Topic("food", ["Apple", "Banana", "Rice", "Bread", "Milk", "Egg", "Water", "Cake",
                   "Ice Cream", "Orange", "Grape", "Chicken"]),
    Topic("body", ["Head", "Eye", "Ear", "Nose", "Mouth", "Hand", "Foot", "Finger", "Hair",
                   "Teeth"])
  ]

  /** `TOPICS.find(t => t.id === topicId)`: the first topic with that id, if any. */
  function FindTopic(topics: seq<Topic>, topicId: string): (r: Option<Topic>)
    ensures r.None? <==> forall i :: 0 <= i < |topics| ==> topics[i].id != topicId
    ensures r.Some? ==> r.value in topics && r.value.id == topicId
    ensures r.Some? ==> exists i :: 0 <= i < |topics| && topics[i] == r.value &&
                          forall j :: 0 <= j < i ==> topics[j].id != topicId
  {
    if |topics| == 0 then None
    else if topics[0].id == topicId then Some(topics[0])
    else
      var r := FindTopic(topics[1..], topicId);
      assert forall i :: 1 <= i < |topics| ==> topics[i] == topics[1..][i - 1];
      r
  }

  /** The five topic ids, in catalog order. */
  lemma CatalogIds()
    ensures |TOPICS| == 5
    ensures TOPICS[0].id == "animals" && TOPICS[1].id == "colors" && TOPICS[2].id == "numbers"
    ensures TOPICS[3].id == "food" && TOPICS[4].id == "body"
  {
  }

  /** `TOPICS.reduce((sum, t) => sum + t.words.length, 0)`, folded from the left. */
  function WordCount(topics: seq<Topic>): nat
  {
    if |topics| == 0 then 0 else WordCount(topics[..|topics| - 1]) + |topics[|topics| - 1].words|
  }

  lemma {:induction false} WordCountAppend(topics: seq<Topic>, t: Topic)
    ensures WordCount(topics + [t]) == WordCount(topics) + |t.words|
  {
    assert (topics + [t])[..|topics|] == topics;
  }

  /** The catalog holds 15 + 10 + 10 + 12 + 10 = 57 words in five topics. */
  lemma CatalogSize()
    ensures |TOPICS| == 5
    ensures |TOPICS[0].words| == 15 && |TOPICS[1].words| == 10 && |TOPICS[2].words| == 10
    ensures |TOPICS[3].words| == 12 && |TOPICS[4].words| == 10
    ensures WordCount(TOPICS) == 57
  {
    var t := TOPICS;
    assert t[..0] == [];
    assert t[..1] == t[..0] + [t[0]];
    assert t[..2] == t[..1] + [t[1]];
    assert t[..3] == t[..2] + [t[2]];
    assert t[..4] == t[..3] + [t[3]];
    assert t == t[..4] + [t[4]];
    WordCountAppend(t[..0], t[0]);
    WordCountAppend(t[..1], t[1]);
    WordCountAppend(t[..2], t[2]);
    WordCountAppend(t[..3], t[3]);
    WordCountAppend(t[..4], t[4]);
  }
}
