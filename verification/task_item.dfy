/**
 * The task record. Timestamps are integers (seconds on one clock); `DueDate` is the optional
 * due date read by the overdue query and the PUT handler.
 */
module Models {
  import opened Wrappers

  datatype TaskItemStatus = Todo | InProgress | Done

  datatype TaskItem = TaskItem(
    Id: int,
    Title: string,
    Description: Option<string>,
    Status: TaskItemStatus,
    CreatedAt: int,
    UpdatedAt: Option<int>,
    DueDate: Option<int>,
    Tags: seq<string>
  )

}
