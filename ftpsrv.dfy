/**
 * The command-line side of the server (ftpsrv.py) that feeds it: cleaning
 * the parsed argument namespace into keyword arguments, and starting the
 * server with those arguments over its defaults.
 */
module Cli {
  import Wrappers
  import opened Values
  import opened Authentication
  import Server

  /** The namespace key under which argparse stores the sub-command's function. */
  const Handler := "handler"

  /** The keys the `run` sub-command's namespace can hold. */
  const RunKeys := {"target", "port", "max_con", "max_con_per_ip", Handler}

  /**
   * args_cleaner: drop `handler` and every falsy value, keeping each
   * remaining key with its value.
   */
  method ArgsCleaner(args: map<string, Value>) returns (clean: map<string, Value>)
    ensures Handler !in clean
    ensures forall k | k in clean :: Truthy(clean[k])
    ensures forall k | k in clean :: k in args && clean[k] == args[k]
    ensures forall k | k in args && k != Handler && Truthy(args[k]) :: k in clean
  {
    var kwargs := args;
    if Handler in kwargs {
      kwargs := kwargs - {Handler};
    }
    clean := map[];
    var pending := kwargs.Keys;
    while pending != {}
      invariant pending <= kwargs.Keys
      invariant forall k | k in clean :: k in kwargs && k !in pending && Truthy(kwargs[k]) && clean[k] == kwargs[k]
      invariant forall k | k in kwargs && k !in pending && Truthy(kwargs[k]) :: k in clean
      decreases pending
    {
      var key :| key in pending;
      if Truthy(kwargs[key]) {
        clean := clean[key := kwargs[key]];
      }
      pending := pending - {key};
    }
  }

  /**
   * The value `run_server` ends up giving the server for `key`: the
   * command line's when it was given and truthy, the default otherwise.
   */
  function Chosen(args: Wrappers.Option<map<string, Value>>, key: string, default: Value): Value
  {
    if args.Some? && key != Handler && key in args.value && Truthy(args.value[key]) then args.value[key]
    else default
  }

  /**
   * run_server: with no namespace (`False`) the server gets every default;
   * otherwise the cleaned keys override the defaults. `cwd` is the working
   * directory, the default target. Returns what the server hands to the
   * FTP library.
   */
  method RunServer(args: Wrappers.Option<map<string, Value>>, cwd: string, auth: Auth)
    returns (srv: Server.Server, listening: Server.Listening)
    requires args.Some? ==> args.value.Keys <= RunKeys
    ensures fresh(srv) && srv.auth == auth
    ensures srv.target == Chosen(args, "target", Str(cwd))
    ensures srv.port == Chosen(args, "port", Int(Server.DefaultPort))
    ensures srv.maxCon == Chosen(args, "max_con", Int(Server.DefaultMaxCon))
    ensures srv.maxConPerIp == Chosen(args, "max_con_per_ip", Int(Server.DefaultMaxConPerIp))
    ensures listening.authorizer.userTable == Server.Table(UsersOf(auth.data), srv.target)
    ensures listening.port == srv.port && listening.maxCon == srv.maxCon && listening.maxConPerIp == srv.maxConPerIp
  {
    if args.None? {
      srv := new Server.Server(auth, Str(cwd));
    } else {
      var clean := ArgsCleaner(args.value);
      srv := new Server.Server(auth,
        if "target" in clean then clean["target"] else Str(cwd),
        port := if "port" in clean then clean["port"] else Int(Server.DefaultPort),
        maxCon := if "max_con" in clean then clean["max_con"] else Int(Server.DefaultMaxCon),
        maxConPerIp := if "max_con_per_ip" in clean then clean["max_con_per_ip"] else Int(Server.DefaultMaxConPerIp));
    }
    listening := srv.Run();
  }
}
