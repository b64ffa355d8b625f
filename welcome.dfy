/** The tutor's welcome screen: a greeting chosen by the hour, a message box with three
    quick actions, and a submit that hands the trimmed message to the chat. */
module Welcome {
  import opened Wrappers
  import Text

  /** `getGreeting`, given the local hour that `new Date().getHours()` reads. */
  function Greeting(hour: int): (g: string)
    ensures g == "Good Morning" <==> hour < 12
    ensures g == "Good Afternoon" <==> 12 <= hour < 17
    ensures g == "Good Evening" <==> 17 <= hour
  {
    if hour < 12 then "Good Morning"
    else if hour < 17 then "Good Afternoon"
    else "Good Evening"
  }

  /** What a submit hands to `onSubmit`: the trimmed message, unless it trims to nothing. */
  function Submission(message: string): (r: Option<string>)
    ensures r.Some? <==> !Text.AllTrimmable(message)
    ensures r.Some? ==> r.value == Text.Trim(message) && r.value != "" && Text.IsTrimmed(r.value)
  {
    var text := Text.Trim(message);
    if text == "" then None else Some(text)
  }

  /** The labels of the quick-action buttons, in display order. */
  const QuickActionLabels: seq<string> := ["Explain a concept", "Help with math", "Write an essay"]

  class WelcomeScreen {
    var message: string
    var greeting: string

    /** The first render, before the mount effect: an empty box and a neutral greeting. */
    constructor ()
      ensures message == "" && greeting == "Hello"
    {
      message, greeting := "", "Hello";
    }

    /** The mount effect: the greeting for the hour of the day. */
    method MountEffect(hour: int)
      modifies this`greeting
      ensures greeting == Greeting(hour)
    {
      greeting := Greeting(hour);
    }

    /** Typing into the box. */
    method SetMessage(text: string)
      modifies this`message
      ensures message == text
    {
      message := text;
    }

    /** A quick action fills the box with exactly its label. */
    method ChooseQuickAction(i: nat)
      requires i < |QuickActionLabels|
      modifies this`message
      ensures message == QuickActionLabels[i]
    {
      message := QuickActionLabels[i];
    }

    /** `handleSubmit`: the text handed to `onSubmit`, if any; the box is left as it is. */
    method HandleSubmit() returns (submitted: Option<string>)
      ensures submitted == Submission(message)
    {
      submitted := Submission(message);
    }

    /** `handleKeyDown`: Enter without Shift submits; any other key, or Shift+Enter,
        hands nothing over. */
    method HandleKeyDown(key: string, shiftKey: bool) returns (submitted: Option<string>)
      ensures key == "Enter" && !shiftKey ==> submitted == Submission(message)
      ensures !(key == "Enter" && !shiftKey) ==> submitted.None?
    {
      if key == "Enter" && !shiftKey {
        submitted := HandleSubmit();
      } else {
        submitted := None;
      }
    }
  }
}
