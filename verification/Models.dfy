/** The records of the local database. */
module Models {
  import opened Terms

  datatype Message = Message(
    id: string, channelId: string, senderId: string, clientMsgId: string, sequenceNum: int, text: Option<string>,
    status: string, messageType: string, createdAt: Option<int>)

  datatype Channel = Channel(name: string, lastMessageAt: Option<int>, unreadCount: Option<int>)
}
