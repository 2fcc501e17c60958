/** The chat tab of app_assistente_ia.py and the third tab of app2.py: a
    session history that is created once, grows by a question and a fixed
    reply per non-empty submission, and is displayed turn by turn. The
    language model the replies stand in for is not part of this model. */
module Chat {
  import opened Wrappers

  /** One `{"role": ..., "content": ...}` entry. */
  datatype Message = Message(role: string, content: string)

  const UserRole: string := "user"
  const AssistantRole: string := "assistant"

  /** The reply of app_assistente_ia.py. */
  const MaintenanceReply: string := "Estamos em manutenção"

  /** The reply of the chat tab of app2.py. */
  const PlaceholderReply: string := "Aqui vai a resposta da LLM (integre sua API de preferência)."

  /** The entries one press of "Enviar" adds: the question and the reply when
      the button was clicked with a non-empty question, nothing otherwise. */
  function Turns(clicked: bool, question: string, reply: string): (t: seq<Message>)
    ensures clicked && question != "" ==>
              t == [Message(UserRole, question), Message(AssistantRole, reply)]
    ensures !(clicked && question != "") ==> t == []
  {
    if clicked && question != "" then [Message(UserRole, question), Message(AssistantRole, reply)]
    else []
  }

  /** One submission: whether the button was clicked, and the question typed. */
  datatype Submission = Submission(clicked: bool, question: string)

  /** Number of submissions that add entries. */
  function Answered(subs: seq<Submission>): (n: nat)
    ensures n <= |subs|
    ensures n == 0 <==> forall i :: 0 <= i < |subs| ==> !(subs[i].clicked && subs[i].question != "")
  {
    if subs == [] then 0
    else Answered(subs[..|subs| - 1]) + (if subs[|subs| - 1].clicked && subs[|subs| - 1].question != "" then 1 else 0)
  }

  /** The history after a run of submissions, each answered with `reply`. */
  function Replay(history: seq<Message>, subs: seq<Submission>, reply: string): seq<Message>
  {
    if subs == [] then history
    else
      var last := subs[|subs| - 1];
      Replay(history, subs[..|subs| - 1], reply) + Turns(last.clicked, last.question, reply)
  }

  /** The history is append-only: whatever was there stays, in place, and it
      grows by exactly two entries per answered submission; the entries
      alternate question and reply. */
  lemma {:induction false} ReplayAppendOnly(history: seq<Message>, subs: seq<Submission>, reply: string)
    ensures history <= Replay(history, subs, reply)
    ensures |Replay(history, subs, reply)| == |history| + 2 * Answered(subs)
    ensures forall k :: |history| <= k < |Replay(history, subs, reply)| ==>
              Replay(history, subs, reply)[k].role == (if (k - |history|) % 2 == 0 then UserRole else AssistantRole)
    ensures forall k :: |history| <= k < |Replay(history, subs, reply)| && (k - |history|) % 2 == 1 ==>
              Replay(history, subs, reply)[k].content == reply
    decreases |subs|
  {
    if subs != [] {
      var init := subs[..|subs| - 1];
      var last := subs[|subs| - 1];
      ReplayAppendOnly(history, init, reply);
      var before := Replay(history, init, reply);
      var t := Turns(last.clicked, last.question, reply);
      assert Replay(history, subs, reply) == before + t;
      assert forall k :: 0 <= k < |before| ==> (before + t)[k] == before[k];
      assert forall k :: |before| <= k < |before| + |t| ==> (before + t)[k] == t[k - |before|];
    }
  }

  /** How an entry is displayed: "Você" for the user, "Assistente" for any
      other role. */
  function Speaker(m: Message): (shown: string)
    ensures shown == "Você" <==> m.role == UserRole
    ensures shown != "Você" ==> shown == "Assistente"
  {
    if m.role == UserRole then "Você" else "Assistente"
  }

  /** The displayed lines, as (speaker, content) pairs. */
  function Transcript(history: seq<Message>): (lines: seq<(string, string)>)
    ensures |lines| == |history|
    ensures forall k :: 0 <= k < |history| ==> lines[k] == (Speaker(history[k]), history[k].content)
  {
    seq(|history|, k requires 0 <= k < |history| => (Speaker(history[k]), history[k].content))
  }

  /** Displaying a longer history displays the old lines first, unchanged. */
  lemma TranscriptAppend(history: seq<Message>, more: seq<Message>)
    ensures Transcript(history + more) == Transcript(history) + Transcript(more)
  {
    var a := Transcript(history + more);
    var b := Transcript(history) + Transcript(more);
    assert |a| == |b|;
    forall k | 0 <= k < |a|
      ensures a[k] == b[k]
    {
      if k < |history| {
        assert (history + more)[k] == history[k];
      } else {
        assert (history + more)[k] == more[k - |history|];
      }
    }
  }

  /** `st.session_state`, reduced to its `history` key. */
  class Session {
    var history: Option<seq<Message>>

    /** A fresh session has no history yet. */
    constructor ()
      ensures history == None
    {
      history := None;
    }

    /** `if "history" not in st.session_state: st.session_state.history = []`. */
    method EnsureHistory()
      modifies this
      ensures old(history).None? ==> history == Some([])
      ensures old(history).Some? ==> history == old(history)
    {
      if history.None? {
        history := Some([]);
      }
    }

    /** The "Enviar" branch: append the question, then the reply. */
    method Submit(clicked: bool, question: string, reply: string)
      requires history.Some?
      modifies this
      ensures history == Some(old(history).value + Turns(clicked, question, reply))
    {
      if clicked && question != "" {
        ghost var before := history.value;
        history := Some(history.value + [Message(UserRole, question)]);
        history := Some(history.value + [Message(AssistantRole, reply)]);
        assert history.value == before + [Message(UserRole, question), Message(AssistantRole, reply)];
      } else {
        assert history.value + [] == history.value;
      }
    }

    /** The display loop over the history. */
    method Display() returns (lines: seq<(string, string)>)
      requires history.Some?
      ensures lines == Transcript(history.value)
    {
      var h := history.value;
      lines := [];
      var k := 0;
      while k < |h|
        invariant 0 <= k <= |h|
        invariant lines == Transcript(h[..k])
      {
        TranscriptAppend(h[..k], [h[k]]);
        assert h[..k + 1] == h[..k] + [h[k]];
        lines := lines + [(Speaker(h[k]), h[k].content)];
        k := k + 1;
      }
      assert h[..k] == h;
    }

    /** One rerun of the assistant tab: create the history if needed, record
        the submission with `reply`, and display everything. */
    method Render(clicked: bool, question: string, reply: string) returns (lines: seq<(string, string)>)
      modifies this
      ensures history.Some?
      ensures history.value == (if old(history).Some? then old(history).value else []) + Turns(clicked, question, reply)
      ensures lines == Transcript(history.value)
    {
      EnsureHistory();
      Submit(clicked, question, reply);
      lines := Display();
    }
  }
}
