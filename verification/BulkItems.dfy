/** Bulk responses and the failure classes of the Elasticsearch client. */
module BulkItems {
  import opened Wrappers

  datatype BulkItem = BulkItem(status: nat)

  /** One entry of a bulk response; only the first action present is looked at. */
  datatype BulkItemWrapper = BulkItemWrapper(
    create: Option<BulkItem>, index: Option<BulkItem>, update: Option<BulkItem>, delete: Option<BulkItem>)
  {
    function Item(): Option<BulkItem> {
      if create.Some? then create else if index.Some? then index else if update.Some? then update else delete
    }

    function Status(): Option<nat> {
      match Item() case None => None case Some(i) => Some(i.status)
    }

    predicate IsRecoverable() {
      Status().Some? && (Status().value == 429 || Status().value == 500 || Status().value == 503)
    }

    predicate IsUnrecoverable() {
      && Status().Some? && Status().value >= 400
      && Status().value != 429 && Status().value != 500 && Status().value != 503
    }

    /** The server took the document. */
    predicate IsAccepted() {
      Status().Some? && 200 <= Status().value < 300
    }

    /** No action is named, or its status is neither a success nor a failure. */
    predicate IsUndecided() {
      Status().None? || Status().value < 200 || 300 <= Status().value < 400
    }
  }

  /** The status is that of the first action named, in the order create, index, update, delete. */
  lemma StatusIsOfFirstAction(w: BulkItemWrapper)
    ensures w.create.Some? ==> w.Status() == Some(w.create.value.status)
    ensures w.create.None? && w.index.Some? ==> w.Status() == Some(w.index.value.status)
    ensures w.create.None? && w.index.None? && w.update.Some? ==> w.Status() == Some(w.update.value.status)
    ensures w.create.None? && w.index.None? && w.update.None? && w.delete.Some? ==> w.Status() == Some(w.delete.value.status)
    ensures w.create.None? && w.index.None? && w.update.None? && w.delete.None? ==> w.Status() == None
  {
  }

  datatype BulkResponse = BulkResponse(errors: bool, items: seq<BulkItemWrapper>)
  {
    predicate HasRecoverable() {
      exists i | 0 <= i < |items| :: items[i].IsRecoverable()
    }
  }

  /** The code looks for the two kinds of failure only; what passes it is an acceptance or undecided. */
  lemma FailureKindsExclude(w: BulkItemWrapper)
    ensures !(w.IsRecoverable() && w.IsUnrecoverable())
    ensures !w.IsRecoverable() && !w.IsUnrecoverable() <==> w.IsAccepted() || w.IsUndecided()
    ensures !(w.IsAccepted() && w.IsUndecided())
  {
  }
}
