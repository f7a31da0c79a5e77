/**
 * DeletePolicyCommand: removes a set of policy tags from the client at a
 * 1-based position of the displayed list.
 *
 * The displayed list is the model state here; replacing the client there
 * stands for the model's setClient(old, new). Feedback text is symbolic:
 * which client is formatted into the success message and whether the
 * advisory about the priority command is appended.
 */
module DeletePolicy {
  import opened Results
  import opened Messages
  import opened ClientModel

  datatype DeletePolicyCommand = DeletePolicyCommand(clientIndex: OneBased, policiesToDelete: set<Tag>)

  /** The two ways execution can fail; neither changes the model. */
  datatype CommandError =
    | InvalidClientDisplayedIndex(usage: Usage)  // the index message followed by the formatted usage
    | PolicyNotFound

  /**
   * The success message formats `shown`; when `advisory` holds it is followed
   * by the suggestion to use the priority command.
   */
  datatype CommandResult = PolicyDeleted(shown: Client, advisory: bool)

  datatype Executed = Executed(clients: seq<Client>, feedback: CommandResult)

  /** Decides, from the client before deletion and the tags to delete, whether the advisory is appended. */
  type AdvisoryRule = (Client, set<Tag>) -> bool

  /** The deletion takes a priority tag off the client. */
  predicate RemovesPriority(c: Client, toDelete: set<Tag>) {
    exists t :: t in c.tags && t in toDelete && t.PriorityTag?
  }

  /** The advisory is appended at least whenever a priority tag is removed. */
  ghost predicate AdvisesOnPriority(advise: AdvisoryRule) {
    forall c, d :: RemovesPriority(c, d) ==> advise(c, d)
  }

  /** The client at position i of the list after a successful deletion. */
  function Updated(c: Client, toDelete: set<Tag>): (r: Client)
    ensures r.tags <= c.tags && r.tags !! toDelete
    ensures forall t :: t in c.tags && t !in toDelete ==> t in r.tags
    ensures r.name == c.name && r.phone == c.phone && r.email == c.email && r.address == c.address
  {
    WithTags(c, c.tags - toDelete)
  }

  /** execute: bounds check, then the not-found check, then replace the one client. */
  function Execute(cmd: DeletePolicyCommand, shown: seq<Client>, advise: AdvisoryRule): (r: Result<Executed, CommandError>)
    ensures r == Failure(InvalidClientDisplayedIndex(DeletePolicyUsage)) <==> cmd.clientIndex > |shown|
    ensures r == Failure(PolicyNotFound)
            <==> cmd.clientIndex <= |shown| && shown[cmd.clientIndex - 1].tags !! cmd.policiesToDelete
    ensures r.Success?
            <==> cmd.clientIndex <= |shown| && !(shown[cmd.clientIndex - 1].tags !! cmd.policiesToDelete)
    ensures r.Success? ==>
              var i := cmd.clientIndex - 1;
              && i < |shown|
              && |r.value.clients| == |shown|
              && r.value.clients[i] == Updated(shown[i], cmd.policiesToDelete)
              && r.value.clients[i].tags != shown[i].tags
              && (forall j :: 0 <= j < |shown| && j != i ==> r.value.clients[j] == shown[j])
              && r.value.feedback.shown == r.value.clients[i]
              && r.value.feedback.advisory == advise(shown[i], cmd.policiesToDelete)
    ensures r.Success? && AdvisesOnPriority(advise) && RemovesPriority(shown[cmd.clientIndex - 1], cmd.policiesToDelete)
            ==> r.value.feedback.advisory
  {
    if cmd.clientIndex > |shown| then
      Failure(InvalidClientDisplayedIndex(DeletePolicyUsage))
    else
      var i := cmd.clientIndex - 1;
      var target := shown[i];
      if target.tags !! cmd.policiesToDelete then
        Failure(PolicyNotFound)
      else
        var edited := Updated(target, cmd.policiesToDelete);
        assert exists t :: t in target.tags && t in cmd.policiesToDelete && t !in edited.tags;
        Success(Executed(shown[i := edited], PolicyDeleted(edited, advise(target, cmd.policiesToDelete))))
  }

  // ---- advisory rules ------------------------------------------------------

  /** Appends the advisory after every successful deletion. */
  function AlwaysAdvise(c: Client, toDelete: set<Tag>): bool {
    true
  }

  /** Appends the advisory only when a priority tag is among the removed tags. */
  function AdviseOnPriorityRemoval(c: Client, toDelete: set<Tag>): bool {
    RemovesPriority(c, toDelete)
  }

  /** Both readings of the advisory condition satisfy the priority-removal requirement. */
  lemma AdvisoryRulesAdmissible()
    ensures AdvisesOnPriority(AlwaysAdvise)
    ensures AdvisesOnPriority(AdviseOnPriorityRemoval)
  {
  }

  // ---- properties of execution ---------------------------------------------

  /** The deletion removes exactly the requested tags the client had; adding them back restores the client. */
  lemma RemovedTagsAreTheIntersection(cmd: DeletePolicyCommand, shown: seq<Client>, advise: AdvisoryRule)
    requires Execute(cmd, shown, advise).Success?
    ensures var before := shown[cmd.clientIndex - 1];
            var after := Execute(cmd, shown, advise).value.clients[cmd.clientIndex - 1];
            && before.tags - after.tags == before.tags * cmd.policiesToDelete
            && WithTags(after, after.tags + (before.tags * cmd.policiesToDelete)) == before
  {
  }

  /** Repeating a successful deletion on its own result fails: the tags are gone. */
  lemma SecondDeletionFails(cmd: DeletePolicyCommand, shown: seq<Client>, advise: AdvisoryRule)
    requires Execute(cmd, shown, advise).Success?
    ensures Execute(cmd, Execute(cmd, shown, advise).value.clients, advise) == Failure(PolicyNotFound)
  {
  }

  /**
   * Tags the client does not hold play no part: deleting a set behaves, on the
   * model, like deleting only its members the client has.
   */
  lemma AbsentTagsIgnored(cmd: DeletePolicyCommand, shown: seq<Client>, advise: AdvisoryRule)
    requires cmd.clientIndex <= |shown|
    ensures var present := cmd.policiesToDelete * shown[cmd.clientIndex - 1].tags;
            var r1 := Execute(cmd, shown, advise);
            var r2 := Execute(DeletePolicyCommand(cmd.clientIndex, present), shown, advise);
            && r1.Success? == r2.Success?
            && (r1.Success? ==> r1.value.clients == r2.value.clients)
            && (r1.Success? ==> r1.value.feedback.shown == r2.value.feedback.shown)
  {
    var i := cmd.clientIndex - 1;
    var present := cmd.policiesToDelete * shown[i].tags;
    assert shown[i].tags - cmd.policiesToDelete == shown[i].tags - present;
  }

  /** An index one past the end of the displayed list is always refused, whatever the tags. */
  lemma IndexPastEndFails(shown: seq<Client>, toDelete: set<Tag>, advise: AdvisoryRule)
    ensures Execute(DeletePolicyCommand(|shown| + 1, toDelete), shown, advise)
            == Failure(InvalidClientDisplayedIndex(DeletePolicyUsage))
  {
  }

  /**
   * Deleting one tag the first client has: the expected list is the original
   * with that client replaced, and the message formats the replacement.
   */
  lemma DeleteExistingPolicy(shown: seq<Client>, t: Tag, advise: AdvisoryRule)
    requires |shown| >= 1 && t in shown[0].tags
    ensures var expected := WithTags(shown[0], shown[0].tags - {t});
            Execute(DeletePolicyCommand(1, {t}), shown, advise)
            == Success(Executed(shown[0 := expected], PolicyDeleted(expected, advise(shown[0], {t}))))
  {
  }

  /** Deleting a tag the client does not have is refused with the not-found error. */
  lemma DeleteMissingPolicy(shown: seq<Client>, t: Tag, advise: AdvisoryRule)
    requires |shown| >= 2 && t !in shown[1].tags
    ensures Execute(DeletePolicyCommand(2, {t}), shown, advise) == Failure(PolicyNotFound)
  {
  }

  /** Deleting two added plain policies at once removes both; the message shows the updated client. */
  lemma DeleteSeveralPolicies(shown: seq<Client>, n1: Tag, n2: Tag, advise: AdvisoryRule)
    requires |shown| >= 1
    ensures var c := WithTags(shown[0], shown[0].tags + {n1, n2});
            var r := Execute(DeletePolicyCommand(1, {n1, n2}), shown[0 := c], advise);
            && r.Success?
            && n1 !in r.value.clients[0].tags && n2 !in r.value.clients[0].tags
            && r.value.feedback.shown == r.value.clients[0]
  {
  }

  /**
   * Deleting the priority tag succeeds, and under any rule that advises on
   * priority removal the success message is followed by the advisory.
   */
  lemma DeletePriorityPolicy(shown: seq<Client>, p: Tag, advise: AdvisoryRule)
    requires |shown| >= 1 && p.PriorityTag?
    requires AdvisesOnPriority(advise)
    ensures var c := WithTags(shown[0], shown[0].tags + {p});
            var r := Execute(DeletePolicyCommand(1, {p}), shown[0 := c], advise);
            && r.Success?
            && r.value.feedback == PolicyDeleted(WithTags(c, c.tags - {p}), true)
  {
    var c := WithTags(shown[0], shown[0].tags + {p});
    assert RemovesPriority(c, {p});
  }

  /** The worked example: a client holding only "Life Insurance", in a list of two. */
  lemma LifeInsuranceExample(a: Client, b: Client, advise: AdvisoryRule)
    requires a.tags == {PlainTag("Life Insurance")}
    ensures var shown := [a, b];
            var life := {PlainTag("Life Insurance")};
            && Execute(DeletePolicyCommand(1, life), shown, advise)
               == Success(Executed([WithTags(a, {}), b], PolicyDeleted(WithTags(a, {}), advise(a, life))))
            && Execute(DeletePolicyCommand(1, {PlainTag("Nonexistent")}), shown, advise) == Failure(PolicyNotFound)
            && Execute(DeletePolicyCommand(3, life), shown, advise)
               == Failure(InvalidClientDisplayedIndex(DeletePolicyUsage))
  {
    var life := {PlainTag("Life Insurance")};
    assert a.tags - life == {};
    assert [a, b][0 := WithTags(a, {})] == [WithTags(a, {}), b];
    assert PlainTag("Nonexistent") != PlainTag("Life Insurance");
  }

  // ---- equality and printing -----------------------------------------------

  /** Two commands are equal exactly when their indices and tag sets are. */
  lemma CommandEquality(a: DeletePolicyCommand, b: DeletePolicyCommand)
    ensures a == b <==> a.clientIndex == b.clientIndex && a.policiesToDelete == b.policiesToDelete
  {
  }

  /** A value in a field dump. */
  datatype FieldValue = IndexValue(index: OneBased) | TagsValue(tags: set<Tag>)

  /** toString: the class's field dump, clientIndex first, then policiesToDelete. */
  function DebugFields(cmd: DeletePolicyCommand): (r: seq<(string, FieldValue)>)
    ensures |r| == 2
    ensures r[0].0 == "clientIndex" && r[1].0 == "policiesToDelete"
  {
    [("clientIndex", IndexValue(cmd.clientIndex)), ("policiesToDelete", TagsValue(cmd.policiesToDelete))]
  }

  /** The dump determines the command, and equal commands print alike. */
  lemma DebugFieldsFaithful(a: DeletePolicyCommand, b: DeletePolicyCommand)
    ensures DebugFields(a) == DebugFields(b) <==> a == b
  {
    if DebugFields(a) == DebugFields(b) {
      assert DebugFields(a)[0] == DebugFields(b)[0];
      assert DebugFields(a)[1] == DebugFields(b)[1];
    }
  }
}
