/**
 * The chat text a decision is made on: the `content` of every turn whose
 * role is "user", joined with single spaces, in the order of the transcript.
 */
module Chat {
  import opened Text

  datatype Turn = Turn(role: string, content: string)

  /** The list comprehension `[msg['content'] for msg in chat_history if msg['role'] == 'user']`. */
  function UserContents(history: seq<Turn>): seq<string>
    decreases |history|
  {
    if |history| == 0 then []
    else (if history[0].role == "user" then [history[0].content] else []) + UserContents(history[1..])
  }

  /** `" ".join(...)` over the user contents. */
  function UserText(history: seq<Turn>): string
  {
    Join(" ", UserContents(history))
  }

  /** The selection distributes over splitting a transcript: it keeps order and looks at each turn alone. */
  lemma {:induction false} UserContentsAppend(a: seq<Turn>, b: seq<Turn>)
    ensures UserContents(a + b) == UserContents(a) + UserContents(b)
    decreases |a|
  {
    if |a| > 0 {
      assert (a + b)[0] == a[0];
      assert (a + b)[1..] == a[1..] + b;
      UserContentsAppend(a[1..], b);
    } else {
      assert a + b == b;
    }
  }

  /** A turn by anyone but the user contributes nothing, wherever it stands. */
  lemma OtherTurnIgnored(a: seq<Turn>, t: Turn, b: seq<Turn>)
    requires t.role != "user"
    ensures UserText(a + [t] + b) == UserText(a + b)
  {
    assert UserContents([t]) == [] by { assert [t][1..] == []; }
    UserContentsAppend(a + [t], b);
    UserContentsAppend(a, [t]);
    UserContentsAppend(a, b);
    assert UserContents(a + [t] + b) == UserContents(a + b);
  }

  /** A user turn contributes exactly its content, after the earlier user contents. */
  lemma UserTurnKept(a: seq<Turn>, t: Turn, b: seq<Turn>)
    requires t.role == "user"
    ensures UserContents(a + [t] + b) == UserContents(a) + [t.content] + UserContents(b)
  {
    assert UserContents([t]) == [t.content] by { assert [t][1..] == []; }
    UserContentsAppend(a + [t], b);
    UserContentsAppend(a, [t]);
  }

  /** Whatever a user turn says appears, whole, in the chat text. */
  lemma {:induction false} UserTurnInText(history: seq<Turn>, i: int)
    requires 0 <= i < |history| && history[i].role == "user"
    ensures exists at :: OccursAt(history[i].content, UserText(history), at)
  {
    var parts := UserContents(history);
    assert history == history[..i] + [history[i]] + history[i + 1..];
    UserTurnKept(history[..i], history[i], history[i + 1..]);
    var k := |UserContents(history[..i])|;
    assert parts[k] == history[i].content;
    JoinKeepsPart(" ", parts, k);
    assert UserText(history) == Join(" ", parts);
  }
}
