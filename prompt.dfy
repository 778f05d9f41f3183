/** The prompt string built from the quiz selection (topic, subtopic and an
    optional genre), identical in the guided generator, its regenerate
    button and the mini-game start. */
module Prompt {
  import opened Wrappers
  import opened JsStrings

  /** `genre.replace(/[^\w\s]/g, '').trim()`: the genre label without emoji
      or punctuation and without surrounding white space; every word
      character of the label survives, and nothing else but white space. */
  function CleanGenre(genre: string): (g: string)
    ensures forall c :: c in g ==> (IsWordChar(c) || IsSpace(c)) && c in genre
    ensures forall c :: c in genre && IsWordChar(c) ==> c in g
    ensures g == [] || (!IsSpace(g[0]) && !IsSpace(g[|g| - 1]))
    ensures g == [] <==> AllSpace(StripNonWord(genre))
  {
    var t := StripNonWord(genre);
    var g := Trim(t);
    forall c | c in g
      ensures (IsWordChar(c) || IsSpace(c)) && c in genre
    {
      assert c in t;
    }
    forall c | c in genre && IsWordChar(c)
      ensures c in g
    {
      WordCharNotSpace(c);
    }
    g
  }

  /** A string of word and space characters survives the strip unchanged. */
  lemma {:induction false} StripKeepsClean(s: string)
    requires forall c :: c in s ==> IsWordChar(c) || IsSpace(c)
    ensures StripNonWord(s) == s
  {
    if s != [] {
      assert s[0] in s;
      assert forall c :: c in s[1..] ==> c in s;
      StripKeepsClean(s[1..]);
      assert s == [s[0]] + s[1..];
    }
  }

  /** A cleaned genre is left as it is by a second cleaning. */
  lemma CleanGenreIdempotent(genre: string)
    ensures CleanGenre(CleanGenre(genre)) == CleanGenre(genre)
  {
    var g := CleanGenre(genre);
    StripKeepsClean(g);
    assert TrimEnd(g) == g;
    assert TrimStart(g) == g;
  }

  /** A concatenation starts with its first part and includes both. */
  lemma Joined(a: string, b: string)
    ensures IsPrefix(a, a + b) && Contains(a + b, a) && Contains(a + b, b)
  {
    ContainsMiddle("", a, b);
    ContainsMiddle(a, b, "");
    assert "" + a + b == a + b;
    assert a + b + "" == a + b;
    assert (a + b)[..|a|] == a;
  }

  /** The prompt: the cleaned genre and the subtopic when a genre is chosen;
      otherwise the topic name alone for a subtopic whose name starts with
      "General", and "<subtopic> in <topic>" for any other. It names the
      subtopic unless that is a general one without a genre, names the topic
      whenever no genre is chosen, and leads with the cleaned genre and a
      space when one is. */
  function PromptFor(topicName: string, subtopicName: string, genre: Option<string>): (p: string)
    ensures Truthy(genre) || !IsPrefix("General", subtopicName) ==> Contains(p, subtopicName)
    ensures !Truthy(genre) ==> Contains(p, topicName)
    ensures Truthy(genre) ==> IsPrefix(CleanGenre(genre.value) + " ", p)
    ensures !Truthy(genre) && IsPrefix("General", subtopicName) ==> p == topicName
  {
    if Truthy(genre) then
      var lead := CleanGenre(genre.value) + " ";
      Joined(lead, subtopicName);
      lead + subtopicName
    else if IsPrefix("General", subtopicName) then
      Joined(topicName, "");
      assert topicName + "" == topicName;
      topicName
    else
      var tail := " in " + topicName;
      Joined(subtopicName, tail);
      Joined(subtopicName + " in ", topicName);
      assert subtopicName + tail == subtopicName + " in " + topicName;
      subtopicName + tail
  }
}
