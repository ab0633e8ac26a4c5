/** Picking elements of finite sets. */
module Sets {

  ghost function Pick<T>(s: set<T>): (x: T)
    requires s != {}
    ensures x in s
  {
    var x :| x in s; x
  }

  // Any element at all: iteration over a set visits it in an arbitrary order.
  method PickAny<T>(s: set<T>) returns (x: T)
    requires s != {}
    ensures x in s
  {
    x :| x in s;
  }

  lemma SubsetIsSmaller<T>(few: set<T>, many: set<T>)
    requires few <= many
    ensures |few| <= |many|
    ensures |few| == |many| ==> few == many
  {
    assert many == few + (many - few);
  }
}
