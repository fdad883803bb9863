/** What the page shows for a given controller state. */
module Display {

  /** The caption: `userText || aiText`, where an empty string counts as false. */
  function ShownText(userText: string, aiText: string): (r: string)
    ensures r == userText || r == aiText
    ensures userText != [] ==> r == userText
    ensures r == [] <==> userText == [] && aiText == []
  {
    if userText != [] then userText else aiText
  }

  datatype Avatar = UserAvatar | AssistantAvatar

  /**
    The animations rendered: the user animation when there is no reply text, the
    assistant animation when there is one; the two conditions are independent tests.
   */
  function Avatars(aiText: string): (r: set<Avatar>)
    ensures |r| == 1
    ensures AssistantAvatar in r <==> aiText != []
  {
    (if aiText == [] then {UserAvatar} else {}) + (if aiText != [] then {AssistantAvatar} else {})
  }

  const ListeningLabel: string := "Listening..."
  const TalkLabel: string := "\U{1F3A4} Talk"

  /** The talk button reads "Listening..." exactly while recognition has reported its start. */
  function ButtonLabel(listening: bool): (r: string)
    ensures r == ListeningLabel <==> listening
    ensures r == ListeningLabel || r == TalkLabel
  {
    if listening then ListeningLabel else TalkLabel
  }
}
