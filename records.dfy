/** The persisted records: the user document (models/User.js is not part of
    this model, so its shape is the one server.js reads and writes), private
    messages, room messages and rooms. Timestamps are integers (milliseconds). */
module Records {

  datatype RequestStatus = Pending

  /** An entry of a user's `friendRequests`: a request received from `from`. */
  datatype FriendRequest = FriendRequest(from: string, status: RequestStatus, createdAt: int)

  /** An entry of a user's `sentRequests`: a request sent to `to`. */
  datatype SentRequest = SentRequest(to: string, status: RequestStatus, createdAt: int)

  /** A user document. `password` stands for the bcrypt hash; credentials are
      compared by equality. */
  datatype User = User(
    password: string,
    privateKey: string,
    friends: seq<string>,
    friendRequests: seq<FriendRequest>,
    sentRequests: seq<SentRequest>,
    lastActive: int)

  /** A PrivateMessage document; `id` stands for the ObjectId. */
  datatype PrivateMessage = PrivateMessage(
    id: nat,
    sender: string,
    recipient: string,
    content: string,
    plaintext: string,
    encrypted: bool,
    read: bool,
    timestamp: int)

  /** A Message document (a message sent to a room). */
  datatype RoomMessage = RoomMessage(
    sender: string,
    room: string,
    content: string,
    plaintext: string,
    encrypted: bool,
    timestamp: int)

  /** A Room document as the server lists it (name and creator). */
  datatype Room = Room(name: string, creator: string)

  /** An entry of the in-memory `activeUsers` registry. */
  datatype ActiveUser = ActiveUser(username: string, privateKey: string)
}
