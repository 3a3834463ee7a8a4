/** End-to-end runs of the handlers from an empty database. */
module Scenarios {
  import opened Values
  import opened Models
  import opened Db
  import opened Crypto
  import opened Http
  import opened Friends
  import opened Messaging
  import opened Auth

  /** The two accounts of the chat scenario, registered one after the other. */
  lemma TwoAccounts(fold: string -> string, p: Primitives, t: nat)
    requires fold("alice@example.com") != fold("bob@example.com")
    ensures
      var s1 := RegisterFixed(Empty, fold, p, Some("alice"), Some("pw1"), Some("alice@example.com"), "A", 1, t).store;
      var s2 := RegisterFixed(s1, fold, p, Some("bob"), Some("pw2"), Some("bob@example.com"), "B", 2, t).store;
      "A" in s2.users && "B" in s2.users && s2.edges == [] && s2.messages == []
  {
  }

  /** From two unconnected accounts: request, accept, send "hi"; the history
      then holds exactly that message, unread. */
  lemma ChatBetween(s2: Store, t: nat)
    requires "A" in s2.users && "B" in s2.users && s2.edges == [] && s2.messages == []
    ensures
      var s3 := SendFriendRequest(s2, Some("A"), Some("B")).store;
      var s4 := AcceptFriendRequest(s3, Some("A"), Some("B")).store;
      var r5 := SendMessage(s4, Some("A"), Some("B"), Some("hi"), t);
      var h := GetMessages(r5.store, Some("A"), Some("B"));
      && r5.status == 201
      && h.status == 200
      && h.body == MessageList([Message("A", "B", "hi", false, t)])
  {
  }

  /** Two accounts, a request, its acceptance and one message: the history
      holds that one unread message. Registration here is the corrected one;
      as written, the first step already fails (see `RegisterFailsFirstStep`). */
  lemma FriendsCanChat(fold: string -> string, p: Primitives, t: nat)
    requires fold("alice@example.com") != fold("bob@example.com")
    ensures
      var s1 := RegisterFixed(Empty, fold, p, Some("alice"), Some("pw1"), Some("alice@example.com"), "A", 1, t).store;
      var s2 := RegisterFixed(s1, fold, p, Some("bob"), Some("pw2"), Some("bob@example.com"), "B", 2, t).store;
      var s3 := SendFriendRequest(s2, Some("A"), Some("B")).store;
      var s4 := AcceptFriendRequest(s3, Some("A"), Some("B")).store;
      var r5 := SendMessage(s4, Some("A"), Some("B"), Some("hi"), t);
      var h := GetMessages(r5.store, Some("A"), Some("B"));
      && r5.status == 201
      && h.status == 200
      && h.body == MessageList([Message("A", "B", "hi", false, t)])
  {
    TwoAccounts(fold, p, t);
    var s1 := RegisterFixed(Empty, fold, p, Some("alice"), Some("pw1"), Some("alice@example.com"), "A", 1, t).store;
    var s2 := RegisterFixed(s1, fold, p, Some("bob"), Some("pw2"), Some("bob@example.com"), "B", 2, t).store;
    ChatBetween(s2, t);
  }

  /** Two accounts with no friendship: the message is refused with 403. */
  lemma StrangersCannotChat(fold: string -> string, p: Primitives, t: nat)
    requires fold("alice@example.com") != fold("carol@example.com")
    ensures
      var s1 := RegisterFixed(Empty, fold, p, Some("alice"), Some("pw1"), Some("alice@example.com"), "A", 1, t).store;
      var s2 := RegisterFixed(s1, fold, p, Some("carol"), Some("pw3"), Some("carol@example.com"), "C", 3, t).store;
      SendMessage(s2, Some("A"), Some("C"), Some("hi"), t).status == 403
  {
  }

  /** A second registration whose email differs only in case is a 409. */
  lemma CaseVariantEmailConflicts(fold: string -> string, p: Primitives, t: nat)
    requires fold("Alice@example.com") == fold("alice@example.com")
    ensures
      var s1 := RegisterFixed(Empty, fold, p, Some("alice"), Some("pw1"), Some("Alice@example.com"), "A", 1, t).store;
      RegisterFixed(s1, fold, p, Some("alice2"), Some("pw2"), Some("alice@example.com"), "D", 4, t).status == 409
  {
  }

  /** With the registration handler as written, the first step fails with
      500 and the database stays empty, so the request that follows finds no
      users. */
  lemma RegisterFailsFirstStep(fold: string -> string, p: Primitives, t: nat)
    ensures
      var r1 := Register(Empty, fold, p, Some("alice"), Some("pw1"), Some("alice@example.com"), "A", 1, t);
      && r1.status == 500 && r1.store == Empty
      && SendFriendRequest(r1.store, Some("A"), Some("B")).status == 404
  {
  }

  /** A registered account logs in with its password when `compare` accepts
      the digest `hash` made. */
  lemma RegisteredUserLogsIn(fold: string -> string, p: Primitives, t: nat)
    requires Sound(p)
    ensures
      var s1 := RegisterFixed(Empty, fold, p, Some("alice"), Some("pw1"), Some("alice@example.com"), "A", 1, t).store;
      var r := Login(s1, p, Some("alice@example.com"), Some("pw1"), t);
      r.status == 200 && r.body.Session? && r.body.id == "A"
  {
    var s1 := RegisterFixed(Empty, fold, p, Some("alice"), Some("pw1"), Some("alice@example.com"), "A", 1, t).store;
    assert s1.users == map["A" := User("alice", "alice@example.com", p.hash("pw1", SaltRounds, 1), None)];
    assert p.compare("pw1", p.hash("pw1", SaltRounds, 1));
    assert Filled(Some("alice@example.com")) by { assert !IsJsSpace("alice@example.com"[0]); }
    assert Filled(Some("pw1")) by { assert !IsJsSpace("pw1"[0]); }
    assert FindByEmail(s1.users, "alice@example.com") == Some("A");
  }
}
