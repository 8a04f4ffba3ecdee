/** Page arithmetic for listings (dao/paging.go). */
module Paging {

  const ABSOLUTE_MAX_PAGE_SIZE := 10000

  function GetSanitizedPageNumber(pageNumber: int): int {
    if pageNumber < 1 then 1 else pageNumber
  }

  function GetSanitizedPageSize(pageSize: int): int {
    if pageSize < 1 then 1 else if ABSOLUTE_MAX_PAGE_SIZE < pageSize then ABSOLUTE_MAX_PAGE_SIZE else pageSize
  }

  function GetOffset(pageNumber: int, pageSize: int): int {
    (GetSanitizedPageNumber(pageNumber) - 1) * GetSanitizedPageSize(pageSize)
  }

  /** The least number of pages that has room for every row. */
  method GetPageCount(totalRows: nat, pageSize: nat) returns (pageCount: nat)
    requires 0 < pageSize
    ensures totalRows <= pageCount * pageSize
    ensures 0 < pageCount ==> (pageCount - 1) * pageSize < totalRows
  {
    pageCount := totalRows / pageSize;
    assert pageCount * pageSize <= totalRows < pageCount * pageSize + pageSize;
    while pageCount * pageSize < totalRows
      invariant 0 < pageCount ==> (pageCount - 1) * pageSize < totalRows
      invariant pageCount == totalRows / pageSize || totalRows <= pageCount * pageSize
      decreases totalRows - pageCount * pageSize
    {
      pageCount := pageCount + 1;
    }
  }
}
