/**
 * What TelegramResponseException::create promises: the first arm that matches
 * decides, later arms are shadowed, a body that is not a failure (or carries
 * no description) gets the generic exception, and the constructor's defaults.
 */
module ResponseExceptionProperties {
  import opened Wrappers
  import opened ResponseExceptions

  // ---------------------------------------------------------------------
  // First match
  // ---------------------------------------------------------------------

  /** create falls to `default` exactly when no arm matches. */
  lemma ClassifyIsGeneric(message: Value)
    ensures Classify(message) == Generic
            <==> forall j :: 0 <= j < 23 ==> !Matches(Arms()[j], message)
  {
    if Classify(message) != Generic {
      assert Matches(Arms()[Rank(Classify(message))], message);
    }
  }

  /** Arm `j` of a list is the one of rank `j`. */
  predicate Ranked(arms: seq<Arm>) {
    forall j :: 0 <= j < |arms| ==> Rank(arms[j].kind) == j
  }

  lemma ArmsRanked()
    ensures Ranked(Arms())
  {
  }

  /** Over any ranked list of arms, a class chosen as the class of a
      matching arm preceded by no matching one is arm `i`'s exactly when arm
      `i` is the first arm that matches. */
  lemma FirstOfRanked(arms: seq<Arm>, message: Value, i: nat, k: Kind)
    requires Ranked(arms) && i < |arms| == 23
    requires k != Generic ==> Rank(k) < 23 && arms[Rank(k)].kind == k && Matches(arms[Rank(k)], message)
    requires forall j :: 0 <= j < 23 && j < Rank(k) ==> !Matches(arms[j], message)
    ensures k == arms[i].kind
            <==> Matches(arms[i], message) && forall j :: 0 <= j < i ==> !Matches(arms[j], message)
  {
    if Matches(arms[i], message) && forall j :: 0 <= j < i ==> !Matches(arms[j], message) {
      assert Rank(k) <= i;
      assert k != Generic;
      assert Matches(arms[Rank(k)], message);
      assert Rank(k) == i;
    }
  }

  /** create's class is that of arm `i` exactly when arm `i` matches and no
      arm before it does. */
  lemma ClassifyIsFirstMatch(message: Value, i: nat)
    requires i < 23
    ensures Classify(message) == Arms()[i].kind
            <==> Matches(Arms()[i], message) && forall j :: 0 <= j < i ==> !Matches(Arms()[j], message)
  {
    ArmsRanked();
    FirstOfRanked(Arms(), message, i, Classify(message));
  }

  /** The first 22 arms test only substrings. */
  lemma SubstringTestsOnly(i: nat, k: nat)
    requires i < 22 && k < |TriggersAt(i)|
    ensures TriggersAt(i)[k].Has?
  {
    if i < 8 {
    } else if i < 16 {
    } else {
    }
  }

  /** Every test of the cascade is a substring test except one: the loose
      comparison with 'Unauthorized' that opens the last arm. */
  lemma OnlyLooseEquality(i: nat, k: nat)
    requires i < 23 && k < |TriggersAt(i)|
    ensures TriggersAt(i)[k].Equals? <==> i == 22 && k == 0
    ensures i == 22 && k == 0 ==> TriggersAt(i)[k] == Equals("Unauthorized")
  {
    if i < 22 {
      SubstringTestsOnly(i, k);
    }
  }

  /** When two arms match, the later one is never chosen: the class is that
      of a matching arm no later than the earlier one. */
  lemma EarlierArmWins(message: Value, i: nat, j: nat)
    requires i < j < 23
    requires Matches(Arms()[i], message) && Matches(Arms()[j], message)
    ensures Classify(message) != Arms()[j].kind
    ensures Rank(Classify(message)) <= i && Matches(Arms()[Rank(Classify(message))], message)
  {
    assert Rank(Arms()[j].kind) == j;
  }

  /** A description naming both a blocked bot and a missing chat is reported
      as one of the first three kinds, never as ChatNotFound. */
  lemma BlockedShadowsChatNotFound(description: string)
    requires Contains(description, "blocked by the user") && Contains(description, "chat not found")
    ensures Classify(Str(description)) in {MessageToCopyNotFound, MessageToEditNotFound, BotBlockedByUser}
  {
    var v := Str(description);
    assert Fires(Arms()[2].triggers[0], v);
    assert Fires(Arms()[7].triggers[0], v);
    EarlierArmWins(v, 2, 7);
    var k := Classify(v);
    assert Rank(k) <= 2;
  }

  // ---------------------------------------------------------------------
  // Descriptions no phrase occurs in
  // ---------------------------------------------------------------------

  /** Characters by which every phrase of the cascade can be ruled out:
      each phrase contains at least one of them. */
  predicate Marker(c: char) {
    || c == 's' || c == 'b' || c == 'c' || c == 'v' || c == 'q' || c == 'y' || c == 'g'
    || c == 'S' || c == '_' || c == 'T' || c == 'V' || c == 'Q'
  }

  predicate Unmarked(s: string) {
    forall i :: 0 <= i < |s| ==> !Marker(s[i])
  }

  predicate Marked(p: string) {
    exists i :: 0 <= i < |p| && Marker(p[i])
  }

  /** Every test of the arm is a phrase with a marker in it. */
  predicate Blocked(triggers: seq<Trigger>) {
    forall k :: 0 <= k < |triggers| ==> triggers[k].Has? && Marked(triggers[k].phrase)
  }

  // ArmsBlockedFrom0 to ArmsBlockedFrom19 check the 22 arms a few at a time,
  // naming a marker character in each phrase; one lemma over all 22 arms
  // unfolds every phrase at once and is too costly for the solver.

  lemma ArmsBlockedFrom0(j: nat)
    requires 0 <= j < 3
    ensures Blocked(TriggersAt(j))
  {
    if j == 0 {
      assert Marker(TriggersAt(0)[0].phrase[2]);
    } else if j == 1 {
      assert Marker(TriggersAt(1)[0].phrase[2]);
    } else {
      assert Marker(TriggersAt(2)[0].phrase[0]);
    }
  }

  lemma ArmsBlockedFrom3(j: nat)
    requires 3 <= j < 5
    ensures Blocked(TriggersAt(j))
  {
    if j == 3 {
      assert Marker(TriggersAt(3)[0].phrase[1]);
      assert Marker(TriggersAt(3)[1].phrase[1]);
    } else {
      assert Marker(TriggersAt(4)[0].phrase[2]);
      assert Marker(TriggersAt(4)[1].phrase[0]);
      assert Marker(TriggersAt(4)[2].phrase[0]);
    }
  }

  lemma ArmsBlockedFrom5(j: nat)
    requires 5 <= j < 8
    ensures Blocked(TriggersAt(j))
  {
    if j == 5 {
      assert Marker(TriggersAt(5)[0].phrase[0]);
    } else if j == 6 {
      assert Marker(TriggersAt(6)[0].phrase[1]);
    } else {
      assert Marker(TriggersAt(7)[0].phrase[0]);
    }
  }

  lemma ArmsBlockedFrom8(j: nat)
    requires 8 <= j < 10
    ensures Blocked(TriggersAt(j))
  {
    if j == 8 {
      assert Marker(TriggersAt(8)[0].phrase[2]);
      assert Marker(TriggersAt(8)[1].phrase[13]);
    } else {
      assert Marker(TriggersAt(9)[0].phrase[2]);
    }
  }

  lemma ArmsBlockedFrom10(j: nat)
    requires 10 <= j < 13
    ensures Blocked(TriggersAt(j))
  {
    if j == 10 {
      assert Marker(TriggersAt(10)[0].phrase[0]);
    } else if j == 11 {
      assert Marker(TriggersAt(11)[0].phrase[4]);
    } else {
      assert Marker(TriggersAt(12)[0].phrase[2]);
    }
  }

  lemma ArmsBlockedFrom13(j: nat)
    requires 13 <= j < 16
    ensures Blocked(TriggersAt(j))
  {
    if j == 13 {
      assert Marker(TriggersAt(13)[0].phrase[2]);
    } else if j == 14 {
      assert Marker(TriggersAt(14)[0].phrase[2]);
    } else {
      assert Marker(TriggersAt(15)[0].phrase[2]);
    }
  }

  lemma ArmsBlockedFrom16(j: nat)
    requires 16 <= j < 19
    ensures Blocked(TriggersAt(j))
  {
    if j == 16 {
      assert Marker(TriggersAt(16)[0].phrase[0]);
    } else if j == 17 {
      assert Marker(TriggersAt(17)[0].phrase[10]);
    } else {
      assert Marker(TriggersAt(18)[0].phrase[2]);
      assert Marker(TriggersAt(18)[1].phrase[2]);
    }
  }

  lemma ArmsBlockedFrom19(j: nat)
    requires 19 <= j < 22
    ensures Blocked(TriggersAt(j))
  {
    if j == 19 {
      assert Marker(TriggersAt(19)[0].phrase[2]);
    } else if j == 20 {
      assert Marker(TriggersAt(20)[0].phrase[0]);
    } else {
      assert Marker(TriggersAt(21)[0].phrase[8]);
    }
  }

  /** Every arm but the last is made of phrases with markers. */
  lemma EarlyArmsBlocked(j: nat)
    requires j < 22
    ensures Blocked(Arms()[j].triggers)
  {
    if j < 3 {
      ArmsBlockedFrom0(j);
    } else if j < 5 {
      ArmsBlockedFrom3(j);
    } else if j < 8 {
      ArmsBlockedFrom5(j);
    } else if j < 10 {
      ArmsBlockedFrom8(j);
    } else if j < 13 {
      ArmsBlockedFrom10(j);
    } else if j < 16 {
      ArmsBlockedFrom13(j);
    } else if j < 19 {
      ArmsBlockedFrom16(j);
    } else {
      ArmsBlockedFrom19(j);
    }
  }

  /** A phrase with a marker does not occur in a text without one. */
  lemma MarkedAbsent(s: string, p: string)
    requires Unmarked(s) && Marked(p)
    ensures !Contains(s, p)
  {
    var i :| 0 <= i < |p| && Marker(p[i]);
    AbsentChar(s, p, p[i]);
  }

  lemma BlockedMisses(arm: Arm, v: Value)
    requires Blocked(arm.triggers) && Unmarked(AsString(v))
    ensures !Matches(arm, v)
  {
    forall k | 0 <= k < |arm.triggers|
      ensures !Fires(arm.triggers[k], v)
    {
      MarkedAbsent(AsString(v), arm.triggers[k].phrase);
    }
  }

  /** The Unauthorized arm on a message without markers: only a message equal
      to 'Unauthorized' matches it. */
  lemma LastArm(v: Value)
    requires Unmarked(AsString(v))
    ensures Matches(Arms()[22], v) <==> LooseEquals(v, "Unauthorized")
  {
    var arm := Arms()[22];
    assert arm.triggers == [Equals("Unauthorized"), Has("SESSION_REVOKED")];
    assert Marker("SESSION_REVOKED"[0]);
    MarkedAbsent(AsString(v), "SESSION_REVOKED");
    assert !Fires(arm.triggers[1], v);
    assert Fires(arm.triggers[0], v) <==> LooseEquals(v, "Unauthorized");
  }

  /** A message without markers matches none of the first 22 arms. */
  lemma EarlyArmsMiss(v: Value)
    requires Unmarked(AsString(v))
    ensures forall j :: 0 <= j < 22 ==> !Matches(Arms()[j], v)
  {
    forall j | 0 <= j < 22
      ensures !Matches(Arms()[j], v)
    {
      EarlyArmsBlocked(j);
      BlockedMisses(Arms()[j], v);
    }
  }

  /** A message whose string form has no marker fires no phrase test, so it
      is classified Unauthorized when it loosely equals 'Unauthorized' and
      generic otherwise. */
  lemma UnmarkedClassify(v: Value)
    requires Unmarked(AsString(v))
    ensures Classify(v) == (if LooseEquals(v, "Unauthorized") then Unauthorized else Generic)
  {
    EarlyArmsMiss(v);
    LastArm(v);
    ArmsRanked();
    LastArmIsUnauthorized();
    LastOfRanked(Arms(), v, Classify(v));
  }

  lemma LastArmIsUnauthorized()
    ensures Arms()[22].kind == Unauthorized
  {
    assert Arms()[22].kind == KindAt(22);
  }

  /** Over a ranked list of arms none of whose first 22 arms matches, the
      class is that of the last arm if it matches, Generic otherwise. */
  lemma LastOfRanked(arms: seq<Arm>, message: Value, k: Kind)
    requires Ranked(arms) && |arms| == 23
    requires k != Generic ==> Rank(k) < 23 && arms[Rank(k)].kind == k && Matches(arms[Rank(k)], message)
    requires forall j :: 0 <= j < 23 && j < Rank(k) ==> !Matches(arms[j], message)
    requires forall j :: 0 <= j < 22 ==> !Matches(arms[j], message)
    ensures k == (if Matches(arms[22], message) then arms[22].kind else Generic)
  {
    if k != Generic {
      assert Rank(k) == 22;
    }
  }

  // ---------------------------------------------------------------------
  // Messages create meets
  // ---------------------------------------------------------------------

  /** The description create substitutes for a missing one matches no arm. */
  lemma UnknownErrorIsGeneric()
    ensures Classify(Str(UNKNOWN_ERROR)) == Generic
  {
    assert Unmarked(UNKNOWN_ERROR);
    UnmarkedClassify(Str(UNKNOWN_ERROR));
  }

  /** The Unauthorized arm compares the whole description, case included:
      'Unauthorized' matches, while 'unauthorized' (below) and
      'Unauthorized' followed by text without the characters every phrase
      needs (UnauthorizedIsWhole) do not. */
  lemma UnauthorizedMatches()
    ensures Classify(Str("Unauthorized")) == Unauthorized
  {
    assert Unmarked("Unauthorized");
    UnmarkedClassify(Str("Unauthorized"));
  }

  lemma UnauthorizedIsCaseSensitive()
    ensures Classify(Str("unauthorized")) == Generic
  {
    LowerCaseUnauthorized();
    UnmarkedClassify(Str("unauthorized"));
  }

  lemma LowerCaseUnauthorized()
    ensures Unmarked("unauthorized")
    ensures !LooseEquals(Str("unauthorized"), "Unauthorized")
  {
    assert "unauthorized"[0] != "Unauthorized"[0];
  }

  lemma UnauthorizedIsWhole(suffix: string)
    requires Unmarked(suffix) && suffix != ""
    ensures Classify(Str("Unauthorized" + suffix)) == Generic
  {
    var s := "Unauthorized" + suffix;
    assert Unmarked(s) by {
      assert Unmarked("Unauthorized");
      assert forall i :: 0 <= i < |s| ==> s[i] == if i < 12 then "Unauthorized"[i] else suffix[i - 12];
    }
    UnmarkedClassify(Str(s));
    assert |s| > |"Unauthorized"|;
  }

  /** A null message (a body that is not a failure) is searched as "" and
      matches no arm. */
  lemma NullMessageIsGeneric()
    ensures Classify(Null) == Generic
  {
    UnmarkedClassify(Null);
  }

  /** A numeric description prints as digits, which hold no marker. */
  lemma IntMessageIsGeneric(i: int)
    ensures Classify(Int(i)) == Generic
  {
    var t := IntToDecimal(i);
    assert Unmarked(t);
    assert t != "Unauthorized" by {
      if |t| > 0 {
        assert t[0] == '-' || '0' <= t[0] <= '9';
      }
    }
    UnmarkedClassify(Int(i));
  }

  /** A description of true prints as "1" for the phrase tests but compares
      loosely equal to 'Unauthorized', so it lands in the Unauthorized arm;
      false behaves as "". */
  lemma BoolMessages()
    ensures Classify(Bool(true)) == Unauthorized
    ensures Classify(Bool(false)) == Generic
  {
    UnmarkedClassify(Bool(true));
    UnmarkedClassify(Bool(false));
  }

  /** A description holding "blocked by the user" and neither of the two
      earlier phrases is a blocked bot, whatever follows, "chat not found"
      included. */
  lemma BlockedByUser(description: string)
    requires Contains(description, "blocked by the user")
    requires !Contains(description, "message to copy not found")
    requires !Contains(description, "message to edit not found")
    ensures Classify(Str(description)) == BotBlockedByUser
  {
    var v := Str(description);
    assert Arms()[0].triggers == [Has("message to copy not found")];
    assert Arms()[1].triggers == [Has("message to edit not found")];
    assert Fires(Arms()[2].triggers[0], v);
    ClassifyIsFirstMatch(v, 2);
  }

  /** "blocked by the user" between two texts without the letter 'm' (so
      neither message-to-copy nor message-to-edit can occur) is a blocked
      bot. */
  lemma BlockedBetween(before: string, after: string)
    requires 'm' !in before && 'm' !in after
    ensures Classify(Str(before + "blocked by the user" + after)) == BotBlockedByUser
  {
    var d := before + "blocked by the user" + after;
    assert 'm' !in d;
    ContainsSpliced(before, "blocked by the user", after);
    AbsentChar(d, "message to copy not found", 'm');
    AbsentChar(d, "message to edit not found", 'm');
    BlockedByUser(d);
  }

  /** "chat not found" after the blocked phrase does not change the class. */
  lemma BlockedAndChatNotFound()
    ensures Classify(Str("Forbidden: bot was " + "blocked by the user" + "; chat not found")) == BotBlockedByUser
  {
    BlockedBetween("Forbidden: bot was ", "; chat not found");
  }

  /** Three phrases lead to TextTooLong once the arms before it are ruled
      out. */
  lemma TextTooLongPhrases(message: Value)
    requires forall j :: 0 <= j < 4 ==> !Matches(Arms()[j], message)
    ensures Classify(message) == TextTooLong
            <==> Contains(AsString(message), "message is too long")
                 || Contains(AsString(message), "caption is too long")
                 || Contains(AsString(message), "_TOO_LONG")
  {
    ClassifyIsFirstMatch(message, 4);
    var arm := Arms()[4];
    assert arm.kind == TextTooLong;
    assert arm.triggers == [Has("message is too long"), Has("caption is too long"), Has("_TOO_LONG")];
    assert Matches(arm, message)
           <==> Fires(arm.triggers[0], message) || Fires(arm.triggers[1], message) || Fires(arm.triggers[2], message);
  }

  /** Two phrases lead to MessageToDeleteNotFound once the arms before it
      are ruled out. */
  lemma MessageToDeletePhrases(message: Value)
    requires forall j :: 0 <= j < 8 ==> !Matches(Arms()[j], message)
    ensures Classify(message) == MessageToDeleteNotFound
            <==> Contains(AsString(message), "message to delete not found")
                 || Contains(AsString(message), "deleted for everyone")
  {
    ClassifyIsFirstMatch(message, 8);
    var arm := Arms()[8];
    assert arm.kind == MessageToDeleteNotFound;
    assert arm.triggers == [Has("message to delete not found"), Has("deleted for everyone")];
    assert Matches(arm, message) <==> Fires(arm.triggers[0], message) || Fires(arm.triggers[1], message);
  }

  // ---------------------------------------------------------------------
  // create and the constructor on whole bodies
  // ---------------------------------------------------------------------

  /** A body without `ok` false and an `error_code` carries no message or
      code, and create picks the generic exception. */
  lemma NotAFailureIsGeneric(data: Body)
    requires !(Isset(data, "ok") && Isset(data, "error_code") && data["ok"] == Bool(false))
    ensures Create(data).kind == Generic
    ensures Create(data).previous == Some(Details(Null, Null))
  {
    NullMessageIsGeneric();
  }

  /** A failure without a description is generic; its previous exception
      says 'Unknown error from API.', its own message says 'Unknown error
      from API Response.'. */
  lemma MissingDescriptionIsGeneric(data: Body)
    requires Isset(data, "ok") && Isset(data, "error_code") && data["ok"] == Bool(false)
    requires !Isset(data, "description")
    ensures Create(data).kind == Generic
    ensures Create(data).previous == Some(Details(data["error_code"], Str(UNKNOWN_ERROR)))
    ensures Create(data).message == Str(UNKNOWN_RESPONSE_ERROR)
    ensures Create(data).code == data["error_code"]
  {
    UnknownErrorIsGeneric();
  }

  /** On a failure with a description, create classifies the description
      and the exception carries it as its message. */
  lemma FailureUsesDescription(data: Body, description: string)
    requires Isset(data, "ok") && Isset(data, "error_code") && data["ok"] == Bool(false)
    requires "description" in data && data["description"] == Str(description)
    ensures Create(data).kind == Classify(Str(description))
    ensures Create(data).message == Str(description)
    ensures Create(data).previous == Some(Details(data["error_code"], Str(description)))
  {
  }
}
