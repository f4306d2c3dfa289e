/** The data exchanged with the external token service (the `webdeeds-js`
    wallet and registry client). Only the shapes are modelled: every call's
    outcome is handed to the wallet model as a parameter. */
module TokenService {

  /** One entry of `wallet.list()`: an item the wallet holds, with its balance. */
  datatype Item = Item(itemId: string, totalAmount: real)

  /** Why a call into the token service failed (network, validation, conflict). */
  datatype ServiceError = ServiceError(message: string)

  /** The metadata record `client.mint.create` receives. */
  datatype Metadata = Metadata(name: string, description: string, image: string)

  /** The string form of `new Output(amount, itemId, secret)`: its
      serialisation is the library's and is not modelled. */
  datatype OutputText = OutputText(amount: int, itemId: string, secret: string)

  /** The argument of `client.mint.create`. */
  datatype CreateRequest = CreateRequest(metadata: Metadata, outputs: seq<OutputText>)

  /** What `client.mint.create` answers: the new item's id and the outputs
      that hold its initial balance. */
  datatype CreateResult = CreateResult(itemId: string, outputs: seq<string>)

  /** A call the wallet makes into the token service, in the order it makes them. */
  datatype ServiceCall =
    | Create(request: CreateRequest)
    | Receive(outputs: seq<string>)
}
