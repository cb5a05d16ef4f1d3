/** The administrators' update of a question
    (app/commands/decidim/questions/admin/update_question.rb): the command
    validates the form, replaces the attachments when new ones are given, and
    writes the question either through traceability (a new version) or, when
    only the recipient or the state changed, without versioning.

    The hashtag rendering of title and body and the attachment validation are
    done by code that is not part of this model; their results arrive in the
    form. */
module UpdateQuestion {
  import opened Wrappers

  /** An attribute value as compared by `==`. */
  datatype Val = Nil | Str(s: string) | Int(n: int)

  datatype Attachment = Attachment(id: nat)

  /** A version recorded by traceability, with its author. */
  datatype Version = Version(author: nat)

  /** The submitted form. `attributes` is `form.attributes`, in order;
      `titleWithHashtags` and `bodyWithHashtags` are what the hashtag helpers
      give for the submitted title and body. */
  datatype Form = Form(
    valid: bool,
    attributes: seq<(string, Val)>,
    titleWithHashtags: Val,
    bodyWithHashtags: Val,
    categoryId: Val,
    recipient: Val,
    state: Val,
    currentUser: nat,
    processAttachments: bool,
    attachment: Attachment,
    attachmentValid: bool)

  datatype Broadcast = Invalid | Ok(question: Question)

  /** The attributes a user types in; a change to one of them is versioned. */
  predicate UserInputKey(k: string) {
    k == "title" || k == "body" || k == "category_id"
  }

  /** `question.attributes[key]`: nil for a key the question does not have. */
  function Lookup(attributes: map<string, Val>, k: string): Val {
    if k in attributes then attributes[k] else Nil
  }

  /** The map in `only_recipient_or_state_changed?`: each form key whose value
      differs from the question's, nil for the others. */
  function Diff(form: seq<(string, Val)>, question: map<string, Val>): (d: seq<Option<string>>)
    ensures |d| == |form|
    ensures forall k :: 0 <= k < |form| ==>
              d[k] == if Lookup(question, form[k].0) == form[k].1 then None else Some(form[k].0)
  {
    if |form| == 0 then []
    else
      [if Lookup(question, form[0].0) == form[0].1 then None else Some(form[0].0)] + Diff(form[1..], question)
  }

  /** `diff_include_user_input`. */
  predicate DiffIncludeUserInput(diff: seq<Option<string>>) {
    Some("title") in diff || Some("body") in diff || Some("category_id") in diff
  }

  /** `only_recipient_or_state_changed?`. */
  predicate OnlyRecipientOrStateChanged(form: seq<(string, Val)>, question: map<string, Val>) {
    !DiffIncludeUserInput(Diff(form, question))
  }

  /** Only recipient or state changed exactly when every title, body and
      category entry of the form equals the question's. */
  lemma OnlyRecipientOrStateChangedIff(form: seq<(string, Val)>, question: map<string, Val>)
    ensures OnlyRecipientOrStateChanged(form, question) <==>
              forall k :: 0 <= k < |form| && UserInputKey(form[k].0) ==> Lookup(question, form[k].0) == form[k].1
  {
    var d := Diff(form, question);
    if !OnlyRecipientOrStateChanged(form, question) {
      var x :| x in d && (x == Some("title") || x == Some("body") || x == Some("category_id"));
      var k :| 0 <= k < |d| && d[k] == x;
      assert UserInputKey(form[k].0) && Lookup(question, form[k].0) != form[k].1;
    }
  }

  /** A changed recipient or state alone is never versioned. */
  lemma RecipientAndStateNotUserInput(question: map<string, Val>, recipient: Val, state: Val)
    ensures OnlyRecipientOrStateChanged([("recipient", recipient), ("state", state)], question)
  {
    OnlyRecipientOrStateChangedIff([("recipient", recipient), ("state", state)], question);
  }

  /** Against attributes without "category_id", as a question's are, a form
      whose `category_id` is set is always versioned, even when only the
      recipient or the state changed. */
  lemma SetCategoryAlwaysVersioned(form: seq<(string, Val)>, question: map<string, Val>)
    requires "category_id" !in question
    ensures OnlyRecipientOrStateChanged(form, question) ==>
              forall k :: 0 <= k < |form| && form[k].0 == "category_id" ==> form[k].1 == Nil
  {
    OnlyRecipientOrStateChangedIff(form, question);
  }

  class Question {
    var title: Val
    var body: Val
    /** The category, set through `category:` on the association. */
    var category: Val
    var recipient: Val
    var state: Val
    var attachments: seq<Attachment>
    var versions: seq<Version>

    constructor (title: Val, body: Val, category: Val, recipient: Val, state: Val,
                 attachments: seq<Attachment>)
      ensures this.title == title && this.body == body && this.category == category
      ensures this.recipient == recipient && this.state == state
      ensures this.attachments == attachments && this.versions == []
    {
      this.title := title;
      this.body := body;
      this.category := category;
      this.recipient := recipient;
      this.state := state;
      this.attachments := attachments;
      this.versions := [];
    }

    /** `question.attributes`, as far as the form can name them. The category
        is reached through the question's categorization, not through a
        column, so there is no "category_id" attribute. */
    function Attributes(): (r: map<string, Val>)
      reads this
      ensures "category_id" !in r
      ensures Lookup(r, "title") == title && Lookup(r, "body") == body
    {
      map["title" := title, "body" := body, "recipient" := recipient, "state" := state]
    }

    /** `update_without_versioning`: recipient and state, no version. */
    method UpdateWithoutVersioning(form: Form)
      modifies this`recipient, this`state
      ensures recipient == form.recipient && state == form.state
    {
      recipient := form.recipient;
      state := form.state;
    }

    /** `update_with_versioning`: every field the form edits, and one version by
        the current user. */
    method UpdateWithVersioning(form: Form)
      modifies this`title, this`body, this`category, this`recipient, this`state, this`versions
      ensures title == form.titleWithHashtags && body == form.bodyWithHashtags
      ensures category == form.categoryId && recipient == form.recipient && state == form.state
      ensures versions == old(versions) + [Version(form.currentUser)]
    {
      title := form.titleWithHashtags;
      body := form.bodyWithHashtags;
      category := form.categoryId;
      recipient := form.recipient;
      state := form.state;
      versions := versions + [Version(form.currentUser)];
    }

    /** `update_question`. */
    method Update(form: Form)
      modifies this`title, this`body, this`category, this`recipient, this`state, this`versions
      ensures recipient == form.recipient && state == form.state
      ensures OnlyRecipientOrStateChanged(form.attributes, old(Attributes())) ==>
                title == old(title) && body == old(body) && category == old(category) &&
                versions == old(versions)
      ensures !OnlyRecipientOrStateChanged(form.attributes, old(Attributes())) ==>
                title == form.titleWithHashtags && body == form.bodyWithHashtags &&
                category == form.categoryId && versions == old(versions) + [Version(form.currentUser)]
    {
      if OnlyRecipientOrStateChanged(form.attributes, Attributes()) {
        UpdateWithoutVersioning(form);
      } else {
        UpdateWithVersioning(form);
      }
    }
  }

  /** `call`. */
  method Call(form: Form, question: Question) returns (b: Broadcast)
    modifies question
    // an invalid form changes nothing
    ensures !form.valid ==> b == Invalid && unchanged(question)
    // the old attachments are gone before the new one is validated
    ensures form.valid && form.processAttachments && !form.attachmentValid ==>
              b == Invalid && question.attachments == [] &&
              question.title == old(question.title) && question.body == old(question.body) &&
              question.category == old(question.category) &&
              question.recipient == old(question.recipient) && question.state == old(question.state) &&
              question.versions == old(question.versions)
    ensures form.valid && !(form.processAttachments && !form.attachmentValid) ==>
              b == Ok(question) &&
              question.recipient == form.recipient && question.state == form.state &&
              question.attachments == (if form.processAttachments then [form.attachment] else old(question.attachments))
    ensures form.valid && !(form.processAttachments && !form.attachmentValid) &&
            OnlyRecipientOrStateChanged(form.attributes, old(question.Attributes())) ==>
              question.title == old(question.title) && question.body == old(question.body) &&
              question.category == old(question.category) && question.versions == old(question.versions)
    ensures form.valid && !(form.processAttachments && !form.attachmentValid) &&
            !OnlyRecipientOrStateChanged(form.attributes, old(question.Attributes())) ==>
              question.title == form.titleWithHashtags && question.body == form.bodyWithHashtags &&
              question.category == form.categoryId &&
              question.versions == old(question.versions) + [Version(form.currentUser)]
  {
    if !form.valid {
      return Invalid;
    }
    if form.processAttachments {
      question.attachments := [];
      if !form.attachmentValid {
        return Invalid;
      }
    }
    question.Update(form);
    if form.processAttachments {
      question.attachments := question.attachments + [form.attachment];
    }
    return Ok(question);
  }
}
