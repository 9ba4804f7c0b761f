/**
 * The score-tracking hook: it reads score tags out of the assistant's
 * messages, keeps the current score and its "nice" percentage, and strips
 * the tags before a message is displayed.
 *
 * The score utilities (`extractScoreTags`, `updateScore`, `getStoredScore`,
 * `scoreToNicePercentage`) are not part of this model: they are passed in
 * as functions, or, for the stored score, as the value they return.
 * `updateScore` is represented by the total score it reports for a score
 * change and the session's starting score; the storage it writes is not
 * modelled.
 */
module ScoreTracking {
  import opened JsStrings

  /** What `processMessage` is handed: a string, or any other JavaScript value. */
  datatype Message = Text(s: string) | NotText

  const NICE_TAG: string := "<+>"
  const NAUGHTY_TAG: string := "<->"

  /**
   * `text.replace(/<\+>/g, '').replace(/<->/g, '')`: the text with every
   * nice tag removed, then every naughty tag. It is never longer, and it is
   * the text itself exactly when the text holds neither tag.
   */
  function StripTags(s: string): (r: string)
    ensures |r| <= |s|
    ensures r == s <==> !Contains(s, NICE_TAG) && !Contains(s, NAUGHTY_TAG)
  {
    var once := RemoveAll(s, NICE_TAG);
    if Contains(s, NICE_TAG) then
      assert |RemoveAll(once, NAUGHTY_TAG)| < |s|;
      RemoveAll(once, NAUGHTY_TAG)
    else
      RemoveAll(once, NAUGHTY_TAG)
  }

  /**
   * Each pass runs once, so a tag split by another tag survives: the
   * displayed text of `<+<->>` still shows a nice tag.
   */
  lemma NestedTagSurvives()
    ensures StripTags("<+<->>") == NICE_TAG
  {
    NestedHasNoNiceTag();
    NestedLosesNaughtyTag();
  }

  /** The first pass finds no nice tag in `<+<->>`. */
  lemma NestedHasNoNiceTag()
    ensures RemoveAll("<+<->>", NICE_TAG) == "<+<->>"
  {
    var s := "<+<->>";
    assert NICE_TAG == ['<', '+', '>'];
    assert s == ['<', '+', '<', '-', '>', '>'];
    var s1, s2, s3, s4 := s[1..], s[2..], s[3..], s[4..];
    assert s1 == ['+', '<', '-', '>', '>'] && s2 == ['<', '-', '>', '>'];
    assert s3 == ['-', '>', '>'] && s4 == ['>', '>'];
    assert s[2] != NICE_TAG[2];
    RemoveAllKeepsHead(s, NICE_TAG);
    assert s1[0] != NICE_TAG[0];
    RemoveAllKeepsHead(s1, NICE_TAG);
    assert s2[1] != NICE_TAG[1];
    RemoveAllKeepsHead(s2, NICE_TAG);
    assert s3[0] != NICE_TAG[0];
    RemoveAllKeepsHead(s3, NICE_TAG);
    assert RemoveAll(s4, NICE_TAG) == s4;
  }

  /** The second pass takes the naughty tag out of `<+<->>`, leaving `<+>`. */
  lemma NestedLosesNaughtyTag()
    ensures RemoveAll("<+<->>", NAUGHTY_TAG) == NICE_TAG
  {
    var s := "<+<->>";
    assert NICE_TAG == ['<', '+', '>'] && NAUGHTY_TAG == ['<', '-', '>'];
    assert s == ['<', '+', '<', '-', '>', '>'];
    var s1, s2 := s[1..], s[2..];
    assert s1 == ['+', '<', '-', '>', '>'] && s2 == ['<', '-', '>', '>'];
    assert s[1] != NAUGHTY_TAG[1];
    RemoveAllKeepsHead(s, NAUGHTY_TAG);
    assert s1[0] != NAUGHTY_TAG[0];
    RemoveAllKeepsHead(s1, NAUGHTY_TAG);
    assert s2[..3] == NAUGHTY_TAG;
    RemoveAllDropsHead(s2, NAUGHTY_TAG);
    assert s2[3..] == ['>'];
    assert RemoveAll(s2[3..], NAUGHTY_TAG) == ['>'];
  }

  /** `!messageText || typeof messageText !== 'string'` fails: a non-empty string. */
  predicate Processable(msg: Message) {
    msg.Text? && msg.s != []
  }

  /** The hook's state: the score shown, its percentage, and the score the session started from. */
  class ScoreTracker {
    var currentScore: int
    var nicePercentage: real
    var sessionStartScore: int

    /** The initial `useState(0)`, `useState(50)` and `useRef(0)`. */
    constructor ()
      ensures currentScore == 0 && nicePercentage == 50.0 && sessionStartScore == 0
    {
      currentScore := 0;
      nicePercentage := 50.0;
      sessionStartScore := 0;
    }

    /** The mount effect: the stored score becomes the current and the session's starting score. */
    method Mount(storedScore: int, scoreToNicePercentage: int -> real)
      modifies this
      ensures currentScore == storedScore && sessionStartScore == storedScore
      ensures nicePercentage == scoreToNicePercentage(storedScore)
    {
      sessionStartScore := storedScore;
      currentScore := storedScore;
      nicePercentage := scoreToNicePercentage(storedScore);
    }

    /**
     * `processMessage`. An empty or non-string message comes back as it
     * is. Otherwise the score moves only when the message's tags add up to
     * a change other than zero, the session's starting score never moves,
     * and the message comes back with its tags stripped.
     */
    method ProcessMessage(msg: Message, extractScoreTags: string -> int,
                          updateScore: (int, int) -> int, scoreToNicePercentage: int -> real)
      returns (shown: Message)
      modifies this
      ensures !Processable(msg) ==> shown == msg
      ensures Processable(msg) ==> shown == Text(StripTags(msg.s))
      ensures sessionStartScore == old(sessionStartScore)
      ensures !Processable(msg) || extractScoreTags(msg.s) == 0 ==>
        currentScore == old(currentScore) && nicePercentage == old(nicePercentage)
      ensures Processable(msg) && extractScoreTags(msg.s) != 0 ==>
        && currentScore == updateScore(extractScoreTags(msg.s), old(sessionStartScore))
        && nicePercentage == scoreToNicePercentage(currentScore)
    {
      if !Processable(msg) {
        return msg;
      }
      var scoreChange := extractScoreTags(msg.s);
      if scoreChange != 0 {
        var totalScore := updateScore(scoreChange, sessionStartScore);
        currentScore := totalScore;
        nicePercentage := scoreToNicePercentage(totalScore);
      }
      shown := Text(StripTags(msg.s));
    }
  }
}
