/** Deciding whether a message is a greeting, a farewell or a search. */
module Intent {
  import opened Text

  /** The normalised messages that receive the welcome text. */
  const Greetings: seq<string> := ["", "hi", "hello", "hey"]

  /** The farewell markers exactly as the handler lists them; the last three
      carry upper-case letters. */
  const FarewellMarkers: seq<string> := ["bye", "goodbye", "see you", "exit", "Thanks", "Txn", "THANK"]

  /** The markers that can actually occur in a lower-cased message. */
  const LowerCaseMarkers: seq<string> := ["bye", "goodbye", "see you", "exit"]

  datatype Intent = Greeting | Farewell | Search

  /** `message.strip().lower()`: the result is trimmed and has no upper-case letter. */
  function Normalize(message: string): (u: string)
    ensures NoUpper(u)
    ensures u == [] || (!IsSpace(u[0]) && !IsSpace(u[|u| - 1]))
  {
    Lower(Strip(message))
  }

  predicate IsGreeting(u: string)
  {
    u in Greetings
  }

  /** `any(bye in user_input for bye in [...])`. */
  predicate IsFarewell(u: string)
  {
    exists k :: 0 <= k < |FarewellMarkers| && Contains(u, FarewellMarkers[k])
  }

  /** The greeting test runs first, the farewell test second; anything else is a search. */
  function Classify(message: string): Intent
  {
    var u := Normalize(message);
    if IsGreeting(u) then Greeting
    else if IsFarewell(u) then Farewell
    else Search
  }

  /** A message already in normal form is left alone by normalisation. */
  lemma NormalizeFixesNormal(u: string)
    requires NoUpper(u)
    requires u == [] || (!IsSpace(u[0]) && !IsSpace(u[|u| - 1]))
    ensures Normalize(u) == u
  {
    StripTrimmed(u);
    LowerOfLower(u);
  }

  /** On a string without upper-case letters only the four lower-case
      markers can match. */
  lemma OnlyLowerCaseMarkersMatch(u: string)
    requires NoUpper(u)
    ensures IsFarewell(u) <==> exists k :: 0 <= k < |LowerCaseMarkers| && Contains(u, LowerCaseMarkers[k])
  {
    NoUpperExcludes(u, FarewellMarkers[4], 0);
    NoUpperExcludes(u, FarewellMarkers[5], 0);
    NoUpperExcludes(u, FarewellMarkers[6], 0);
    assert forall k :: 0 <= k < 4 ==> FarewellMarkers[k] == LowerCaseMarkers[k];
  }

  /** The markers "Thanks", "Txn" and "THANK" are compared against a
      lower-cased message, so only the four lower-case markers can ever
      make a message a farewell. */
  lemma CapitalisedMarkersNeverMatch(message: string)
    ensures IsFarewell(Normalize(message)) <==>
              exists k :: 0 <= k < |LowerCaseMarkers| && Contains(Normalize(message), LowerCaseMarkers[k])
  {
    OnlyLowerCaseMarkersMatch(Normalize(message));
  }

  /** An empty or all-blank message is a greeting: it strips to "". */
  lemma BlankIsGreeting(message: string)
    requires AllSpaces(message)
    ensures Classify(message) == Greeting
  {
    StripLeftSuffix(message);
    assert StripLeft(message) == [];
    assert Normalize(message) == Greetings[0];
  }

  /** Case and surrounding whitespace do not matter to the greeting test. */
  lemma PaddedGreeting(message: string)
    requires message == "  Hi  "
    ensures Classify(message) == Greeting
  {
    var pad, word := "  ", "Hi";
    assert message == pad + word + pad;
    StripPadded(pad, word, pad);
    assert Lower(word) == Greetings[1];
  }

  /** An upper-case greeting word is still a greeting. */
  lemma ShoutedGreeting(message: string)
    requires message == "HEY"
    ensures Classify(message) == Greeting
  {
    assert |message| == 3 && message[0] == 'H' && message[2] == 'Y';
    StripTrimmed(message);
    assert Lower(message) == Greetings[3];
  }

  /** "thanks" is not recognised as a farewell: it falls through to a search. */
  lemma ThanksIsASearch(u: string)
    requires u == "thanks"
    ensures Classify(u) == Search
  {
    assert |u| == 6 && u[0] == 't' && u[5] == 's';
    assert NoUpper(u);
    NormalizeFixesNormal(u);
    assert !IsGreeting(u);
    assert 'b' !in u && 'g' !in u && 'e' !in u;
    MissingFirstCharExcludes(u, LowerCaseMarkers[0]);
    MissingFirstCharExcludes(u, LowerCaseMarkers[1]);
    MissingFirstCharExcludes(u, LowerCaseMarkers[3]);
    TooLongExcludes(u, LowerCaseMarkers[2]);
    OnlyLowerCaseMarkersMatch(u);
  }

  /** A farewell marker inside a longer message is enough. */
  lemma FarewellInsideSentence(u: string)
    requires u == "ok thanks bye"
    ensures Classify(u) == Farewell
  {
    StripTrimmed(u);
    LowerOfLower(u);
    assert OccursAt(u, FarewellMarkers[0], 10);
  }
}
