/** Putting the messages of one handshake together when some are drawn more than once.

    `reassemble` marks fragments by index alone. A mark here also says which message of its kind the fragment
    came from, and what is put together follows from that.
 */
module Assembly {
  import opened Config
  import opened Handshake
  import F = Fragments

  // ----- the messages -----

  const PARAMS_LEN: nat := 20

  predicate Secured(m: Msg) {
    m in {JoinCfm, JoinAck, ResumeRsp}
  }

  /** A request is a nonce, a public key and a certificate, and a response adds a signature; a confirmation is a
      signature and a resumption a nonce. */
  function Length(m: Msg): nat {
    match m
    case JoinReq => 8 + 64 + 140
    case JoinRsp => 8 + 64 + 140 + 64
    case JoinCfm => 64
    case JoinAck => PARAMS_LEN
    case ResumeReq => 8
    case ResumeRsp => PARAMS_LEN
    case NoMsg => 0
  }

  function Frags(m: Msg): (n: nat)
    ensures n <= 3
  {
    match m
    case JoinReq => 2
    case JoinRsp => 3
    case NoMsg => 0
    case _ => 1
  }

  /** How many fragments each message takes, whatever the length of the authentication tag. */
  lemma FragmentCount(m: Msg, sent: F.Message)
    requires m != NoMsg && sent.secured == Secured(m) && |sent.body| == Length(m)
    ensures F.Total(sent) == Frags(m)
  {
  }

  // ----- putting one message together -----

  // A fragment that has arrived, and of which message of its kind.
  datatype Mark = Unseen | Seen(tag: nat)

  type Seens = s: seq<Mark> | |s| == 3 witness [Unseen, Unseen, Unseen]

  const NONE_SEEN: Seens := [Unseen, Unseen, Unseen]

  datatype Marks = Marks(kind: Msg, seen: Seens)

  const NO_MARKS := Marks(NoMsg, NONE_SEEN)

  predicate AllSeen(seen: Seens, n: nat) {
    (seen[0] != Unseen <==> n > 0) && (seen[1] != Unseen <==> n > 1) && (seen[2] != Unseen <==> n > 2)
  }

  predicate OneTag(seen: Seens, n: nat) {
    (n > 1 ==> seen[1] == seen[0]) && (n > 2 ==> seen[2] == seen[0])
  }

  /** Fragment `i` is taken in. One that completes the message clears the marks; the message passes its checks
      only if all of it is one message. */
  function Take(rx: Marks, kind: Msg, tag: nat, i: nat): (Marks, Heard)
    requires i < Frags(kind)
  {
    var was: Seens := if rx.kind != kind || i == 0 then NONE_SEEN else rx.seen;
    var seen: Seens := was[i := Seen(tag)];
    if AllSeen(seen, Frags(kind)) then (Marks(kind, NONE_SEEN), Whole(OneTag(seen, Frags(kind))))
    else (Marks(kind, seen), Part)
  }

  predicate Arrives(arrives: seq<bool>, i: nat) {
    i < |arrives| && arrives[i]
  }

  /** Fragments `i` and later of a message that is sent, those that arrive. An end that has failed takes in no
      more of them. */
  function Receive(rx: Marks, kind: Msg, tag: nat, arrives: seq<bool>, i: nat): (Marks, Heard)
    decreases 3 - i
  {
    if i >= Frags(kind) then (rx, Nothing)
    else if !Arrives(arrives, i) then Receive(rx, kind, tag, arrives, i + 1)
    else
      var (rx', heard) := Take(rx, kind, tag, i);
      if heard == Whole(false) then (rx', heard)
      else
        var (rx'', later) := Receive(rx', kind, tag, arrives, i + 1);
        (rx'', if heard.Whole? || later == Nothing then heard else later)
  }

  // ----- what the marks hold -----

  /** No mark is younger than the present response, and once its first fragment is in, none is older. */
  predicate JoinerMarks(rx: Marks, gen: nat) {
    && (rx.kind != JoinRsp ==> rx.seen == NONE_SEEN)
    && (forall j :: 0 <= j < 3 && rx.seen[j] != Unseen ==> rx.seen[j].tag <= gen)
    && (rx.seen[0] == Seen(gen) ==> forall j :: 0 <= j < 3 ==> rx.seen[j] in {Unseen, Seen(gen)})
  }

  predicate RouterMarks(rx: Marks) {
    && (rx.kind != JoinReq ==> rx.seen == NONE_SEEN)
    && forall j :: 0 <= j < 3 ==> rx.seen[j] in {Unseen, Seen(0)}
  }

  /** The first fragment is missing and the one held is of an older response, and what arrives supplies what
      was still missing of that one. */
  predicate Splice(rx: Marks, gen: nat, arrives: seq<bool>) {
    !Arrives(arrives, 0) && rx.seen[0] != Seen(gen) && Completes(rx, arrives)
  }

  // With the first fragment held, later ones complete the response.
  predicate Completes(rx: Marks, arrives: seq<bool>) {
    && rx.kind == JoinRsp && rx.seen[0] != Unseen && (Arrives(arrives, 1) || Arrives(arrives, 2))
    && (Arrives(arrives, 1) || rx.seen[1] != Unseen) && (Arrives(arrives, 2) || rx.seen[2] != Unseen)
  }

  predicate AllArrive(m: Msg, arrives: seq<bool>) {
    forall i :: 0 <= i < Frags(m) ==> Arrives(arrives, i)
  }

  /** A response completes out of two exactly when it splices; and it completes if all of it arrives. */
  lemma ResponseHeard(rx: Marks, gen: nat, arrives: seq<bool>)
    requires JoinerMarks(rx, gen)
    ensures
      var (rx', heard) := Receive(rx, JoinRsp, gen, arrives, 0);
      && JoinerMarks(rx', gen)
      && (heard == Whole(false) <==> Splice(rx, gen, arrives))
      && (AllArrive(JoinRsp, arrives) ==> heard == Whole(true))
  {
    if Arrives(arrives, 0) {
      var (rx', _) := Take(rx, JoinRsp, gen, 0);
      assert rx' == Marks(JoinRsp, [Seen(gen), Unseen, Unseen]);
      RestHeard(rx', gen, arrives);
    } else {
      assert !AllArrive(JoinRsp, arrives);
      RestHeard(rx, gen, arrives);
    }
  }

  // The fragments after the first.
  lemma RestHeard(rx: Marks, gen: nat, arrives: seq<bool>)
    requires JoinerMarks(rx, gen)
    ensures
      var (rx', heard) := Receive(rx, JoinRsp, gen, arrives, 1);
      && JoinerMarks(rx', gen)
      && (heard == Whole(false) <==> rx.seen[0] != Seen(gen) && Completes(rx, arrives))
      && (heard == Whole(true) <==> rx.seen[0] == Seen(gen) && Completes(rx, arrives))
  {
    if Arrives(arrives, 1) {
      var (rx', heard) := Take(rx, JoinRsp, gen, 1);
      LastHeard(rx', gen, arrives);
    } else {
      LastHeard(rx, gen, arrives);
    }
  }

  lemma LastHeard(rx: Marks, gen: nat, arrives: seq<bool>)
    requires JoinerMarks(rx, gen)
    ensures
      var (rx', heard) := Receive(rx, JoinRsp, gen, arrives, 2);
      && JoinerMarks(rx', gen)
      && (heard.Whole? <==>
            Arrives(arrives, 2) && rx.kind == JoinRsp && rx.seen[0] != Unseen && rx.seen[1] != Unseen)
      && (heard.Whole? ==> heard.valid == (rx.seen[0] == Seen(gen)))
  {
  }

  lemma RequestHeard(rx: Marks, arrives: seq<bool>)
    requires RouterMarks(rx)
    ensures
      var (rx', heard) := Receive(rx, JoinReq, 0, arrives, 0);
      RouterMarks(rx') && heard != Whole(false) && (AllArrive(JoinReq, arrives) ==> heard == Whole(true))
  {
    assert AllArrive(JoinReq, arrives) ==> Arrives(arrives, 0) && Arrives(arrives, 1);
  }

  lemma ShortHeard(rx: Marks, m: Msg, arrives: seq<bool>)
    requires Frags(m) == 1
    ensures
      Receive(rx, m, 0, arrives, 0) ==
        if Arrives(arrives, 0) then (Marks(m, NONE_SEEN), Whole(true)) else (rx, Nothing)
  {
  }

  // ----- the buffer behind the marks -----

  // What each message of each kind says.
  type Book = (Msg, nat) -> F.Message

  // Frame types by their numbers.
  function TypeOf(m: Msg): nat {
    match m
    case NoMsg => 0
    case JoinReq => 1
    case JoinRsp => 2
    case JoinCfm => 3
    case JoinAck => 4
    case ResumeReq => 5
    case ResumeRsp => 6
  }

  /** A message of its kind, which can be sent. */
  ghost predicate Proper(sent: F.Message, m: Msg) {
    F.Sendable(sent) && sent.ftype == TypeOf(m) && sent.secured == Secured(m) && |sent.body| == Length(m)
  }

  /** Mark `i` is bit `i`, and behind it lies that fragment of the message it names. */
  ghost predicate Shows(rx: F.Rx, mk: Marks, book: Book, i: nat)
    requires i < 3
  {
    && (rx.seen[i] <==> mk.seen[i] != Unseen)
    && (mk.seen[i] != Unseen && i < Frags(mk.kind) ==> Behind(rx.buf, mk.kind, mk.seen[i].tag, book, i))
  }

  ghost predicate Behind(buf: F.Buffer, kind: Msg, tag: nat, book: Book, i: nat) {
    && kind != NoMsg && Proper(book(kind, tag), kind) && i < F.Total(book(kind, tag))
    && F.HasChunk(buf, book(kind, tag), i)
  }

  ghost predicate Stands(rx: F.Rx, mk: Marks, book: Book) {
    && rx.ftype == TypeOf(mk.kind) && Shows(rx, mk, book, 0) && Shows(rx, mk, book, 1) && Shows(rx, mk, book, 2)
    && (forall i :: 3 <= i < 8 ==> !rx.seen[i])
    && (forall i :: 0 <= i < 3 && mk.seen[i] != Unseen ==> i < Frags(mk.kind))
    && rx.len == if Frags(mk.kind) > 0 && mk.seen[Frags(mk.kind) - 1] != Unseen then Length(mk.kind) else 0
  }

  // Writing one fragment leaves the others, of whatever message of the kind.
  lemma OthersStay(buf: F.Buffer, sent: F.Message, other: F.Message, m: Msg, i: nat, j: nat)
    requires Proper(sent, m) && Proper(other, m) && i < F.Total(sent) && j < F.Total(other) && i != j
    requires F.HasChunk(buf, other, j)
    ensures F.HasChunk(F.Patched(buf, F.Offset(sent, i), F.FragmentOf(sent, i).data), other, j)
  {
    F.Coverage(sent, i);
    F.Coverage(other, j);
    F.Coverage(sent, j);
    var off, data := F.Offset(sent, i), F.Chunk(sent, i);
    var b := F.Patched(buf, off, data);
    forall k | F.Offset(other, j) <= k < F.Offset(other, j) + |F.Chunk(other, j)|
      ensures b[k] == other.body[k]
    {
      assert b[k] == buf[k];
    }
  }

  // The marks and the buffer after a first fragment or another type has cleared them.
  lemma Cleared(rx: F.Rx, mk: Marks, book: Book, kind: Msg, tag: nat, i: nat)
    requires Stands(rx, mk, book) && Proper(book(kind, tag), kind) && kind != NoMsg && i < F.Total(book(kind, tag))
    ensures
      var r := F.Reset(rx, F.FragmentOf(book(kind, tag), i));
      Stands(r, Marks(kind, if mk.kind != kind || i == 0 then NONE_SEEN else mk.seen), book)
  {
  }

  lemma ShownStays(rx: F.Rx, mk: Marks, book: Book, tag: nat, i: nat, j: nat)
    requires mk.kind != NoMsg && Proper(book(mk.kind, tag), mk.kind) && i < F.Total(book(mk.kind, tag)) && j < 3
    requires Shows(rx, mk, book, j) && i < 3 && i != j
    ensures
      var f := F.FragmentOf(book(mk.kind, tag), i);
      Shows(rx.(buf := F.Patched(rx.buf, F.Offset(book(mk.kind, tag), i), f.data), seen := rx.seen[i := true]),
            mk.(seen := mk.seen[i := Seen(tag)]), book, j)
  {
    if mk.seen[j] != Unseen && j < Frags(mk.kind) {
      OthersStay(rx.buf, book(mk.kind, tag), book(mk.kind, mk.seen[j].tag), mk.kind, i, j);
    }
  }

  // The buffer with fragment `i` of `sent` written and marked.
  function Written(rx: F.Rx, sent: F.Message, i: nat): F.Rx
    requires F.Sendable(sent) && i < F.Total(sent) && i < 8
  {
    var f := F.FragmentOf(sent, i);
    F.Rx(rx.ftype, F.Patched(rx.buf, F.Offset(sent, i), f.data), rx.seen[i := true],
         if i == F.Total(sent) - 1 then F.Offset(sent, i) + |f.data| else rx.len)
  }

  lemma WrittenStands(rx: F.Rx, mk: Marks, book: Book, tag: nat, i: nat)
    requires Stands(rx, mk, book) && mk.kind != NoMsg && i < Frags(mk.kind) && Proper(book(mk.kind, tag), mk.kind)
    ensures i < F.Total(book(mk.kind, tag))
    ensures Stands(Written(rx, book(mk.kind, tag), i), mk.(seen := mk.seen[i := Seen(tag)]), book)
  {
    var sent := book(mk.kind, tag);
    FragmentCount(mk.kind, sent);
    F.Coverage(sent, i);
    F.PatchKeeps(rx.buf, sent, i, i);
    if i != 0 {
      ShownStays(rx, mk, book, tag, i, 0);
    }
    if i != 1 {
      ShownStays(rx, mk, book, tag, i, 1);
    }
    if i != 2 {
      ShownStays(rx, mk, book, tag, i, 2);
    }
  }

  lemma CompleteTogether(rx: F.Rx, mk: Marks, book: Book)
    requires Stands(rx, mk, book) && mk.kind != NoMsg
    ensures (F.SeenAll(rx.seen, Frags(mk.kind)) && rx.len > 0) <==> AllSeen(mk.seen, Frags(mk.kind))
    ensures AllSeen(mk.seen, Frags(mk.kind)) ==> rx.len == Length(mk.kind)
  {
    if AllSeen(mk.seen, Frags(mk.kind)) {
      assert rx.seen[0] && (rx.seen[1] <==> Frags(mk.kind) > 1) && (rx.seen[2] <==> Frags(mk.kind) > 2);
    }
  }

  lemma OneMessage(rx: F.Rx, mk: Marks, book: Book, tag: nat)
    requires Stands(rx, mk, book) && mk.kind != NoMsg && Proper(book(mk.kind, tag), mk.kind)
    requires AllSeen(mk.seen, Frags(mk.kind)) && OneTag(mk.seen, Frags(mk.kind)) && mk.seen[0] == Seen(tag)
    ensures rx.buf[..Length(mk.kind)] == book(mk.kind, tag).body
  {
    FragmentCount(mk.kind, book(mk.kind, tag));
    F.AllChunks(rx.buf, book(mk.kind, tag));
  }

  lemma AcceptWrites(rx: F.Rx, sent: F.Message, i: nat)
    requires F.Sendable(sent) && i < F.Total(sent) && i < 8
    ensures
      var (rx', done) := F.Accept(rx, F.FragmentOf(sent, i));
      && rx' == Written(F.Reset(rx, F.FragmentOf(sent, i)), sent, i)
      && F.Total(sent) <= 8 && (done <==> F.SeenAll(rx'.seen, F.Total(sent)) && rx'.len > 0)
  {
    F.Coverage(sent, i);
  }

  // What the marks hold once fragment `i` is marked, complete or not.
  function Marked(mk: Marks, kind: Msg, tag: nat, i: nat): Marks
    requires i < 3
  {
    Marks(kind, (if mk.kind != kind || i == 0 then NONE_SEEN else mk.seen)[i := Seen(tag)])
  }

  /** What the two make of it agrees. */
  ghost predicate Agree(rx: F.Rx, done: bool, mk: Marks, heard: Heard, book: Book, kind: Msg, tag: nat) {
    && (done <==> heard.Whole?)
    && Stands(if done then rx.(buf := F.ZEROS, seen := F.NO_BITS, len := 0) else rx, mk, book)
    && (done ==> rx.len == Length(kind))
    && (heard == Whole(true) ==> rx.len <= 288 && rx.buf[..rx.len] == book(kind, tag).body)
  }

  lemma MarkedAgrees(rx: F.Rx, mk: Marks, book: Book, kind: Msg, tag: nat, i: nat)
    requires kind != NoMsg && i < Frags(kind) && Proper(book(kind, tag), kind)
    requires Stands(rx, Marked(mk, kind, tag, i), book)
    ensures
      Agree(rx, F.SeenAll(rx.seen, Frags(kind)) && rx.len > 0, Take(mk, kind, tag, i).0, Take(mk, kind, tag, i).1, book,
            kind, tag)
  {
    var all := Marked(mk, kind, tag, i);
    CompleteTogether(rx, all, book);
    if Take(mk, kind, tag, i).1 == Whole(true) {
      OneMessage(rx, all, book, tag);
    }
  }

  /** The buffer of `reassemble` moves as the marks do: it completes when they do, and what it then holds is the
      message sent if all marks name that one. */
  lemma TakeRefines(rx: F.Rx, mk: Marks, book: Book, kind: Msg, tag: nat, i: nat)
    requires Stands(rx, mk, book) && kind != NoMsg && i < Frags(kind) && Proper(book(kind, tag), kind)
    ensures
      i < F.Total(book(kind, tag)) &&
      var (rx', done) := F.Accept(rx, F.FragmentOf(book(kind, tag), i));
      var (mk', heard) := Take(mk, kind, tag, i);
      Agree(rx', done, mk', heard, book, kind, tag)
  {
    var sent := book(kind, tag);
    FragmentCount(kind, sent);
    Cleared(rx, mk, book, kind, tag, i);
    var was := Marks(kind, if mk.kind != kind || i == 0 then NONE_SEEN else mk.seen);
    WrittenStands(F.Reset(rx, F.FragmentOf(sent, i)), was, book, tag, i);
    AcceptWrites(rx, sent, i);
    MarkedAgrees(F.Accept(rx, F.FragmentOf(sent, i)).0, mk, book, kind, tag, i);
  }
}
