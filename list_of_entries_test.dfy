/**
 * The scenarios of src/test/model/ListOfEntriesTest.java, as clients that the
 * ListOfEntries contracts alone must satisfy.
 */
module ListOfEntriesTest {
  import opened Wrappers
  import opened EntryModel
  import opened EntryCollections

  function E1(): Entry {
    Entry("Bing", "a@outlook.com", Password("helloworld123"), "www.bing.ca", "none")
  }

  function E2(): Entry {
    Entry("Adobe", "a@outlook.com", Password("goodpassword"), "www.adobe.ca", "none")
  }

  method TestEmptyConstructor() {
    var testList := new ListOfEntries();
    var size := testList.GetSizeOfEntries();
    assert size == 0;
  }

  method TestNotEmptyConstructor() {
    var testList := new ListOfEntries.FromList([E1(), E2()]);
    var actualList := testList.GetEntries();
    assert |actualList| == 2;
    assert actualList[0] == E1();
    assert actualList[1] == E2();
  }

  method TestGetEntryAtIndexZero() {
    var testList := new ListOfEntries.FromList([E1(), E2()]);
    var first := testList.GetEntryAtIndex(0);
    assert first == Success(E1());
  }

  method TestGetEntryAtIndexLast() {
    var testList := new ListOfEntries.FromList([E1(), E2()]);
    var last := testList.GetEntryAtIndex(1);
    assert last == Success(E2());
  }

  method TestAddEntry() {
    var testList := new ListOfEntries();
    testList.AddEntry(E1());
    var size := testList.GetSizeOfEntries();
    var first := testList.GetEntryAtIndex(0);
    assert size == 1;
    assert first == Success(E1());
  }
}
