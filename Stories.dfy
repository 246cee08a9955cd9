/**
 * The storytelling wrapper of src/stories.ts: each topic's story has an
 * intro, a list of transitions shown between words, and a conclusion.
 */
module Stories {

  datatype TopicStory = TopicStory(intro: string, transitions: seq<string>, conclusion: string)

  const ANIMALS_STORY := TopicStory(
    "Buddy is visiting the zoo! Help him learn the names of all the animals he meets.",
    ["Great! Now Buddy walks to the next area of the zoo and sees a...",
     "Wow! Buddy is so excited! He runs to the next cage and finds a...",
     "Amazing! Buddy hears a sound nearby. He looks over and spots a...",
     "Buddy claps his hands! Let's keep exploring. Next he sees a...",
     "The zookeeper waves at Buddy. Look, over there is a..."],
    "Buddy visited all the animals at the zoo! What an amazing adventure! 🦁🐘🐵")

  const COLORS_STORY := TopicStory(
    "Buddy is painting a picture! Help him find all the colors he needs.",
    ["Beautiful! Buddy dips his brush and picks up a new color...",
     "What a masterpiece! Now Buddy needs another color...",
     "Buddy's painting is looking amazing! The next color is...",
     "Splash! Buddy adds more color. Now he reaches for...",
     "Almost done! Buddy needs one more color..."],
    "Buddy finished his painting! It's the most colorful picture ever! 🎨🖼️✨")

  const NUMBERS_STORY := TopicStory(
    "Buddy is counting treasures in a magical cave! Help him count them all.",
    ["Buddy found more treasure! Let's keep counting...",
     "The cave sparkles with gems! Buddy counts the next one...",
     "Amazing! Buddy digs deeper and finds more to count...",
     "Buddy's treasure bag is getting full! Next number is...",
     "The magical cave glows brighter! Buddy counts..."],
    "Buddy counted all the treasures in the magical cave! He's a counting champion! 💎🏆✨")

  const FOOD_STORY := TopicStory(
    "Buddy is cooking a big dinner! Help him learn the names of all the ingredients.",
    ["Yummy! Buddy stirs the pot and grabs the next ingredient...",
     "The kitchen smells delicious! Buddy reaches for...",
     "Buddy puts on his chef hat. The next ingredient is...",
     "Almost ready! Buddy needs one more thing...",
     "Buddy checks the recipe. Next he needs..."],
    "Buddy cooked an amazing dinner! Everything looks so delicious! 👨‍🍳🍽️⭐")

  const BODY_STORY := TopicStory(
    "Buddy is building a robot friend! Help him learn the parts he needs.",
    ["Great work! Buddy attaches the next part to his robot...",
     "The robot is taking shape! Now Buddy adds the...",
     "Buddy uses his tools carefully. The next part is...",
     "Almost done building! Buddy picks up the...",
     "The robot friend is looking great! Next part is..."],
    "Buddy built his robot friend! They high-five and dance together! 🤖🎉💃")

  const ALPHABET_STORY := TopicStory(
    "Buddy found a magical book! Each page reveals a special letter with a surprise...",
    ["Buddy turns the page and discovers a new letter...",
     "The book glows! Another letter appears...",
     "Buddy traces the letter with his finger. Next one is...",
     "What a wonderful letter! Buddy flips to the next page...",
     "The magical book sparkles! Here comes another letter..."],
    "Buddy read the whole magical alphabet book! He knows all 26 letters! 🔤📖✨")

  const SHAPES_STORY := TopicStory(
    "Buddy is exploring Shape World! Everything here has a special shape...",
    ["Buddy looks around and spots another shape...",
     "Shape World is amazing! Buddy finds a new shape...",
     "Buddy reaches out and touches the next shape...",
     "The shapes are everywhere! Buddy discovers a...",
     "Buddy spins around and sees another shape..."],
    "Buddy explored all of Shape World! He's a shape expert now! 🔷🌍⭐")

  const MATH_STORY := TopicStory(
    "Buddy discovered a treasure cave! Help him count all the gems...",
    ["Buddy finds more gems! Let's add them up...",
     "The cave sparkles brighter! Another math puzzle appears...",
     "Buddy picks up shiny gems and counts carefully...",
     "Amazing! Buddy digs deeper and finds another equation...",
     "The treasure keeps coming! Buddy solves the next one..."],
    "Buddy solved all the treasure math! He's a true Math Wizard! 🧮💎🏆")

  const TOPIC_STORIES: map<string, TopicStory> := map[
    "animals" := ANIMALS_STORY,
    "colors" := COLORS_STORY,
    "numbers" := NUMBERS_STORY,
    "food" := FOOD_STORY,
    "body" := BODY_STORY,
    "alphabet" := ALPHABET_STORY,
    "shapes" := SHAPES_STORY,
    "math" := MATH_STORY
  ]

  /** Every one of the eight stories has exactly five transitions. */
  lemma FiveTransitions(topicId: string)
    requires topicId in TOPIC_STORIES
    ensures |TOPIC_STORIES[topicId].transitions| == 5
  {
  }

  lemma EightStories()
    ensures TOPIC_STORIES.Keys == {"animals", "colors", "numbers", "food", "body", "alphabet", "shapes", "math"}
  {
  }

  /**
   * `getTransition`: "" for a topic without a story, otherwise the
   * transitions taken round-robin by `index`.
   */
  function GetTransition(topicId: string, index: nat): (r: string)
    ensures topicId !in TOPIC_STORIES ==> r == ""
    ensures topicId in TOPIC_STORIES ==>
              var ts := TOPIC_STORIES[topicId].transitions;
              |ts| == 5 && r == ts[index % |ts|] && r in ts
  {
    if topicId !in TOPIC_STORIES then ""
    else
      var story := TOPIC_STORIES[topicId];
      FiveTransitions(topicId);
      story.transitions[index % |story.transitions|]
  }

  /** Transitions repeat with the period of the story's transition list. */
  lemma TransitionPeriodic(topicId: string, index: nat)
    requires topicId in TOPIC_STORIES
    ensures GetTransition(topicId, index + |TOPIC_STORIES[topicId].transitions|) == GetTransition(topicId, index)
  {
    FiveTransitions(topicId);
    assert (index + 5) % 5 == index % 5;
  }

  /** The first five indexes walk through a story's transitions in order. */
  lemma TransitionsInOrder(topicId: string, index: nat)
    requires topicId in TOPIC_STORIES && index < 5
    ensures GetTransition(topicId, index) == TOPIC_STORIES[topicId].transitions[index]
  {
    FiveTransitions(topicId);
    assert index % 5 == index;
  }
}
